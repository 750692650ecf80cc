/**
 The condition that finds the base row behind a row of a view WITH CHECK OPTION: an AND
 tree that a loop over the select list grows in place, one comparison per plain column.
 */
module ViewCheck {
  import opened Wrappers
  import opened Bytes
  import opened Blr
  import opened BlrEval
  import opened Tree

  /** A select-list item: a plain column with its base and old field, or a computed value. */
  datatype Item = Plain(base: Node, old_: Node) | Computed

  predicate ValidItem(i: Item) {
    i.Plain? ==> ValidNode(i.base) && ValidNode(i.old_)
  }

  /** old = base OR (old IS NULL AND base IS NULL) */
  function SameColumn(i: Item): Node
    requires i.Plain?
  {
    Operation(Or, [Operation(NodType.Eql, [i.old_, i.base]),
                   Operation(And, [Operation(Missing, [i.old_]), Operation(Missing, [i.base])])])
  }

  function Comparisons(items: seq<Item>): (ns: seq<Node>)
    ensures |ns| <= |items|
  {
    if items == [] then []
    else
      var rest := Comparisons(items[..|items| - 1]);
      var last := items[|items| - 1];
      if last.Plain? then rest + [SameColumn(last)] else rest
  }

  /** The three-valued conjunction of a list. */
  function Conjunction(vs: seq<Value>): (r: Value)
    ensures r == TRUE <==> forall i :: 0 <= i < |vs| ==> vs[i] == TRUE
    ensures r == FALSE <==> FALSE in vs
  {
    if vs == [] then TRUE
    else
      assert vs == vs[..|vs| - 1] + [vs[|vs| - 1]];
      And3(Conjunction(vs[..|vs| - 1]), vs[|vs| - 1])
  }

  predicate AllValid(items: seq<Item>) {
    forall i :: 0 <= i < |items| ==> ValidItem(items[i])
  }

  /** Every plain column of the old view row agrees with the base row's. */
  ghost predicate ColumnsAgree(items: seq<Item>, eng: Engine, cfg: Config, st: State)
    requires AllValid(items)
  {
    forall i :: 0 <= i < |items| && items[i].Plain? ==>
      assert ValidItem(items[i]);
      Agree(eng, Denote(eng, cfg, st, items[i].old_), Denote(eng, cfg, st, items[i].base))
  }

  ghost predicate HasPlain(items: seq<Item>) {
    exists i :: 0 <= i < |items| && items[i].Plain?
  }

  /** A column agrees if the values compare equal or both are null. */
  predicate Agree(eng: Engine, a: Value, b: Value) {
    if a.Null? || b.Null? then a.Null? && b.Null? else eng.compare(a, b) == 0
  }

  lemma ValidSameColumn(i: Item)
    requires i.Plain? && ValidItem(i)
    ensures ValidNode(SameColumn(i))
  {
    var a, b := Operation(Missing, [i.old_]), Operation(Missing, [i.base]);
    assert ValidNode(a) && ValidNode(b);
    var equal, bothNull := Operation(NodType.Eql, [i.old_, i.base]), Operation(And, [a, b]);
    assert ValidNode(equal) && ValidNode(bothNull);
    assert ValidNode(Operation(Or, [equal, bothNull]));
  }

  lemma ValidComparisons(items: seq<Item>)
    requires AllValid(items)
    ensures ValidNodes(Comparisons(items))
  {
    if items != [] {
      ValidComparisons(items[..|items| - 1]);
      if items[|items| - 1].Plain? {
        ValidSameColumn(items[|items| - 1]);
      }
    }
  }

  lemma DenoteTwo(eng: Engine, cfg: Config, st: State, a: Node, b: Node)
    requires ValidNodes([a, b])
    ensures ValidNode(a) && ValidNode(b)
    ensures DenoteAll(eng, cfg, st, [a, b]) == [Denote(eng, cfg, st, a), Denote(eng, cfg, st, b)]
  {
    assert [a, b][0] == a && [a, b][1] == b;
    assert [a, b][1..] == [b] && [b][1..] == [];
    assert DenoteAll(eng, cfg, st, [b]) == [Denote(eng, cfg, st, b)] + DenoteAll(eng, cfg, st, []);
    assert DenoteAll(eng, cfg, st, [a, b]) == [Denote(eng, cfg, st, a)] + DenoteAll(eng, cfg, st, [b]);
  }

  lemma DenoteOne(eng: Engine, cfg: Config, st: State, a: Node)
    requires ValidNode(a)
    ensures ValidNodes([a]) && DenoteAll(eng, cfg, st, [a]) == [Denote(eng, cfg, st, a)]
  {
    assert [a][1..] == [];
    assert DenoteAll(eng, cfg, st, [a]) == [Denote(eng, cfg, st, a)] + DenoteAll(eng, cfg, st, []);
  }

  lemma {:induction false} DenoteAppend(eng: Engine, cfg: Config, st: State, ns: seq<Node>, n: Node)
    requires ValidNodes(ns) && ValidNode(n)
    ensures ValidNodes(ns + [n])
    ensures DenoteAll(eng, cfg, st, ns + [n]) == DenoteAll(eng, cfg, st, ns) + [Denote(eng, cfg, st, n)]
  {
    assert forall i :: 0 <= i < |ns| + 1 ==> ValidNode((ns + [n])[i]);
    if ns == [] {
      assert ns + [n] == [n];
      DenoteOne(eng, cfg, st, n);
    } else {
      assert (ns + [n])[1..] == ns[1..] + [n];
      DenoteAppend(eng, cfg, st, ns[1..], n);
    }
  }

  /** One comparison is never unknown: it holds when the columns agree and is false otherwise. */
  lemma SameColumnMeaning(eng: Engine, cfg: Config, st: State, i: Item)
    requires i.Plain? && ValidItem(i)
    ensures ValidNode(SameColumn(i))
    ensures Denote(eng, cfg, st, SameColumn(i)) == TRUE
            <==> Agree(eng, Denote(eng, cfg, st, i.old_), Denote(eng, cfg, st, i.base))
  {
    ValidSameColumn(i);
    var a, b := Operation(Missing, [i.old_]), Operation(Missing, [i.base]);
    var equal, bothNull := Operation(NodType.Eql, [i.old_, i.base]), Operation(And, [a, b]);
    assert ValidNode(a) && ValidNode(b) && ValidNode(equal) && ValidNode(bothNull);
    hide Denote, Apply, Agree;
    OperationValue(eng, cfg, st, Or, equal, bothNull);
    OperationValue(eng, cfg, st, NodType.Eql, i.old_, i.base);
    OperationValue(eng, cfg, st, And, a, b);
    MissingValue(eng, cfg, st, i.old_);
    MissingValue(eng, cfg, st, i.base);
    SameValues(eng, Denote(eng, cfg, st, i.old_), Denote(eng, cfg, st, i.base));
  }

  lemma SameValues(eng: Engine, x: Value, y: Value)
    ensures Apply(eng, Or, [Apply(eng, NodType.Eql, [x, y]),
                            Apply(eng, And, [Bool(x == Value.Null), Bool(y == Value.Null)])]) == TRUE
            <==> Agree(eng, x, y)
  {
  }

  lemma OperationValue(eng: Engine, cfg: Config, st: State, op: NodType, a: Node, b: Node)
    requires ValidNode(a) && ValidNode(b) && ValidArity(op, 2)
    ensures ValidNode(Operation(op, [a, b]))
    ensures Denote(eng, cfg, st, Operation(op, [a, b]))
            == Apply(eng, op, [Denote(eng, cfg, st, a), Denote(eng, cfg, st, b)])
  {
    assert ValidNodes([a, b]);
    DenoteTwo(eng, cfg, st, a, b);
  }

  lemma MissingValue(eng: Engine, cfg: Config, st: State, a: Node)
    requires ValidNode(a)
    ensures ValidNode(Operation(Missing, [a]))
    ensures Denote(eng, cfg, st, Operation(Missing, [a])) == Bool(Denote(eng, cfg, st, a) == Value.Null)
  {
    DenoteOne(eng, cfg, st, a);
  }

  /** The operands gathered so far mean the comparisons gathered so far, in every state. */
  ghost predicate SameMeaning(args: seq<Node>, ns: seq<Node>) {
    && ValidNodes(args) && ValidNodes(ns)
    && forall eng: Engine, cfg: Config, st: State ::
         Conjunction(DenoteAll(eng, cfg, st, args)) == Conjunction(DenoteAll(eng, cfg, st, ns))
  }

  lemma Grows(args: seq<Node>, ns: seq<Node>, n: Node)
    requires SameMeaning(args, ns) && ValidNode(n)
    ensures SameMeaning(args + [n], ns + [n])
  {
    assert forall i :: 0 <= i < |args| + 1 ==> ValidNode((args + [n])[i]);
    assert forall i :: 0 <= i < |ns| + 1 ==> ValidNode((ns + [n])[i]);
    forall eng: Engine, cfg: Config, st: State
      ensures Conjunction(DenoteAll(eng, cfg, st, args + [n]))
              == Conjunction(DenoteAll(eng, cfg, st, ns + [n]))
    {
      DenoteAppend(eng, cfg, st, args, n);
      DenoteAppend(eng, cfg, st, ns, n);
    }
  }

  lemma Wraps(args: seq<Node>, ns: seq<Node>)
    requires SameMeaning(args, ns) && |args| == 2
    ensures ValidNode(Operation(And, args)) && SameMeaning([Operation(And, args)], ns)
  {
    var whole := Operation(And, args);
    forall eng: Engine, cfg: Config, st: State
      ensures Conjunction(DenoteAll(eng, cfg, st, [whole])) == Conjunction(DenoteAll(eng, cfg, st, ns))
    {
      DenoteOne(eng, cfg, st, whole);
      assert args == [args[0], args[1]];
      DenoteTwo(eng, cfg, st, args[0], args[1]);
      var a, b := Denote(eng, cfg, st, args[0]), Denote(eng, cfg, st, args[1]);
      assert [a, b][..1] == [a] && [a][..0] == [];
      assert Conjunction([a]) == And3(TRUE, a);
      assert Conjunction([a, b]) == And3(Conjunction([a]), b);
      var c := Denote(eng, cfg, st, whole);
      assert [c][..0] == [];
      assert Conjunction([c]) == And3(TRUE, c);
    }
  }

  lemma Meaning(args: seq<Node>, ns: seq<Node>, eng: Engine, cfg: Config, st: State)
    requires SameMeaning(args, ns)
    ensures Conjunction(DenoteAll(eng, cfg, st, args)) == Conjunction(DenoteAll(eng, cfg, st, ns))
  {
  }

  /**
   The loop of the DDL compiler: the first two operands fill the node, each later one
   puts the whole tree under a new node, and the WHERE condition comes last.  The tree is
   well formed exactly when the list has a plain column, and then it holds of a base row
   exactly when every plain column agrees and the WHERE condition holds.
   */
  method DefineUpdateAction(items: seq<Item>, where_: Node) returns (andNode: Node)
    requires AllValid(items) && ValidNode(where_)
    ensures ValidNode(andNode) <==> HasPlain(items)
    ensures ValidNode(andNode) ==>
              forall eng: Engine, cfg: Config, st: State ::
                Denote(eng, cfg, st, andNode) == TRUE
                <==> Denote(eng, cfg, st, where_) == TRUE && ColumnsAgree(items, eng, cfg, st)
  {
    var args: seq<Node> := [];
    var andArg := 0;
    var k := 0;
    assert SameMeaning([], []);
    hide SameMeaning, Denote, ColumnsAgree, SameColumn;
    while k < |items|
      invariant k <= |items|
      invariant SameMeaning(args, Comparisons(items[..k]))
      invariant andArg == |args| <= 2
      invariant andArg > 0 <==> HasPlain(items[..k])
    {
      assert items[..k + 1][..k] == items[..k] && items[..k + 1][k] == items[k];
      PlainSoFar(items, k);
      if items[k].Plain? {
        var orNode := SameColumn(items[k]);
        ValidSameColumn(items[k]);
        if andArg <= 1 {
          Grows(args, Comparisons(items[..k]), orNode);
          args := args + [orNode];
          andArg := andArg + 1;
        } else {
          Wraps(args, Comparisons(items[..k]));
          Grows([Operation(And, args)], Comparisons(items[..k]), orNode);
          args := [Operation(And, args), orNode];
        }
      }
      k := k + 1;
    }
    assert items[..k] == items;
    ghost var tests := Comparisons(items);
    if andArg <= 1 {
      Grows(args, tests, where_);
      args := args + [where_];
    } else {
      Wraps(args, tests);
      Grows([Operation(And, args)], tests, where_);
      args := [Operation(And, args), where_];
    }
    andNode := Operation(And, args);
    if |args| == 2 {
      forall eng: Engine, cfg: Config, st: State
        ensures ValidNode(andNode)
        ensures Denote(eng, cfg, st, andNode) == TRUE
                <==> Denote(eng, cfg, st, where_) == TRUE && ColumnsAgree(items, eng, cfg, st)
      {
        CheckMeaning(items, where_, args, eng, cfg, st);
      }
    }
  }

  lemma PlainSoFar(items: seq<Item>, k: nat)
    requires k < |items|
    ensures HasPlain(items[..k + 1]) <==> HasPlain(items[..k]) || items[k].Plain?
  {
    var more := items[..k + 1];
    assert more[k] == items[k];
    if HasPlain(items[..k]) {
      var i :| 0 <= i < k && items[..k][i].Plain?;
      assert more[i].Plain?;
    }
    if HasPlain(more) {
      var i :| 0 <= i < k + 1 && more[i].Plain?;
      assert i < k ==> items[..k][i].Plain?;
    }
  }

  lemma CheckMeaning(items: seq<Item>, where_: Node, args: seq<Node>, eng: Engine, cfg: Config, st: State)
    requires AllValid(items) && ValidNode(where_) && |args| == 2
    requires SameMeaning(args, Comparisons(items) + [where_])
    ensures ValidNode(Operation(And, args))
    ensures Denote(eng, cfg, st, Operation(And, args)) == TRUE
            <==> Denote(eng, cfg, st, where_) == TRUE && ColumnsAgree(items, eng, cfg, st)
  {
    var whole := Operation(And, args);
    var ns := Comparisons(items) + [where_];
    Wraps(args, ns);
    Meaning([whole], ns, eng, cfg, st);
    DenoteOne(eng, cfg, st, whole);
    ValidComparisons(items);
    DenoteAppend(eng, cfg, st, Comparisons(items), where_);
    AllAgree(items, eng, cfg, st);
    var vs := DenoteAll(eng, cfg, st, Comparisons(items));
    var w, c := Denote(eng, cfg, st, where_), Denote(eng, cfg, st, whole);
    ConjunctionOfOne(c);
    ConjunctionAppend(vs, w);
  }

  lemma ConjunctionOfOne(v: Value)
    ensures Conjunction([v]) == TRUE <==> v == TRUE
  {
    assert [v][0] == v;
  }

  lemma ConjunctionAppend(vs: seq<Value>, v: Value)
    ensures Conjunction(vs + [v]) == TRUE <==> Conjunction(vs) == TRUE && v == TRUE
  {
    assert (vs + [v])[..|vs|] == vs;
  }

  lemma {:induction false} AllAgree(items: seq<Item>, eng: Engine, cfg: Config, st: State)
    requires AllValid(items)
    ensures ValidNodes(Comparisons(items))
    ensures Conjunction(DenoteAll(eng, cfg, st, Comparisons(items))) == TRUE
            <==> ColumnsAgree(items, eng, cfg, st)
  {
    ValidComparisons(items);
    if items != [] {
      var k := |items| - 1;
      var before, last := items[..k], items[k];
      AllAgree(before, eng, cfg, st);
      AgreeOneMore(items, eng, cfg, st);
      if last.Plain? {
        SameColumnMeaning(eng, cfg, st, last);
        DenoteAppend(eng, cfg, st, Comparisons(before), SameColumn(last));
        ConjunctionAppend(DenoteAll(eng, cfg, st, Comparisons(before)),
                          Denote(eng, cfg, st, SameColumn(last)));
      }
    }
  }

  lemma AgreeOneMore(items: seq<Item>, eng: Engine, cfg: Config, st: State)
    requires AllValid(items) && items != []
    ensures var k := |items| - 1;
            AllValid(items[..k]) && ValidItem(items[k])
            && (ColumnsAgree(items, eng, cfg, st)
                <==> ColumnsAgree(items[..k], eng, cfg, st)
                     && (items[k].Plain? ==> Agree(eng, Denote(eng, cfg, st, items[k].old_),
                                                   Denote(eng, cfg, st, items[k].base))))
  {
    hide Denote, Agree;
    var k := |items| - 1;
    assert forall i :: 0 <= i < k ==> items[..k][i] == items[i];
  }
}
