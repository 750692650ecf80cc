/**
 The symbol table: 211 hash buckets, each a list of root symbols linked by collision, each
 root heading a list of symbols of the same name and database linked by homonym.  The
 links are rewritten in place; the ghost view is, per bucket, a sequence of chains.
 */
module Symbols {
  const HASH_SIZE: nat := 211
  const SYM_KEYWORD: nat := 2
  const MIN_VALUE: int := -0x8000_0000

  type schar = x: int | -0x80 <= x < 0x80

  /** The null database of keywords and statements. */
  const NO_DATABASE: nat := 0

  class Sym {
    const str: seq<schar>
    const dbb: nat
    const kind: nat
    const version: nat
    var collision: Sym?
    var homonym: Sym?

    constructor (str: seq<schar>, dbb: nat, kind: nat, version: nat)
      ensures this.str == str && this.dbb == dbb && this.kind == kind && this.version == version
      ensures collision == null && homonym == null
    {
      this.str := str;
      this.dbb := dbb;
      this.kind := kind;
      this.version := version;
      collision := null;
      homonym := null;
    }
  }

  // ----- hashing

  /** Signed 32-bit wrap-around. */
  function Wrap(v: int): int {
    (v + 0x8000_0000) % 0x1_0000_0000 - 0x8000_0000
  }

  function HashValue(s: seq<schar>): (v: int)
    ensures -0x8000_0000 <= v < 0x8000_0000
  {
    if s == [] then 0 else Wrap(2 * HashValue(s[..|s| - 1]) + s[|s| - 1])
  }

  /** C's remainder truncates, and the most negative value is its own negation. */
  function Bucket(v: int): int
    requires -0x8000_0000 <= v < 0x8000_0000
  {
    if v >= 0 then v % HASH_SIZE
    else if v == MIN_VALUE then -(0x8000_0000 % HASH_SIZE)
    else (-v) % HASH_SIZE
  }

  /** A name can be hashed. */
  predicate Hashable(s: seq<schar>) {
    HashValue(s) != MIN_VALUE
  }

  /** The bucket number is inside the table for every wrapped sum but one. */
  lemma BucketInRange(v: int)
    requires -0x8000_0000 <= v < 0x8000_0000
    ensures 0 <= Bucket(v) < HASH_SIZE <==> v != MIN_VALUE
  {
  }

  function Hash(s: seq<schar>): (h: nat)
    requires Hashable(s)
    ensures h < HASH_SIZE
  {
    Bucket(HashValue(s))
  }

  lemma HashStep(s: seq<schar>, c: schar)
    ensures HashValue(s + [c]) == Wrap(2 * HashValue(s) + c)
  {
    assert (s + [c])[..|s|] == s;
  }

  function Pow2(n: nat): nat {
    if n == 0 then 1 else 2 * Pow2(n - 1)
  }

  function LettersA(n: nat): (s: seq<schar>)
    ensures |s| == n
  {
    if n == 0 then [] else LettersA(n - 1) + ['A' as schar]
  }

  lemma WrapTwice(x: int, c: int)
    ensures Wrap(2 * Wrap(x) + c) == Wrap(2 * x + c)
  {
    var q := (x + 0x8000_0000) / 0x1_0000_0000;
    assert Wrap(x) == x - q * 0x1_0000_0000;
  }

  lemma {:induction false} HashOfLetters(n: nat)
    ensures HashValue(LettersA(n)) == Wrap(65 * (Pow2(n) - 1))
  {
    if n > 0 {
      HashOfLetters(n - 1);
      OneMoreLetter(n - 1);
    }
  }

  lemma OneMoreLetter(n: nat)
    requires HashValue(LettersA(n)) == Wrap(65 * (Pow2(n) - 1))
    ensures HashValue(LettersA(n + 1)) == Wrap(65 * (Pow2(n + 1) - 1))
  {
    assert Pow2(n + 1) == 2 * Pow2(n) && LettersA(n + 1) == LettersA(n) + ['A' as schar];
    hide Wrap, HashValue, LettersA, Pow2;
    HashStep(LettersA(n), 'A' as schar);
    WrapTwice(65 * (Pow2(n) - 1), 65);
  }

  /** Twenty-nine letters A and then UZ: an identifier of the greatest length there is. */
  function UnhashableName(): (s: seq<schar>)
    ensures |s| == 31
  {
    LettersA(29) + ['U' as schar] + ['Z' as schar]
  }

  /** Its sum comes out as the most negative value, and its bucket lies before the table. */
  lemma UnhashableNameExists()
    ensures !Hashable(UnhashableName()) && Bucket(HashValue(UnhashableName())) == -131
  {
    hide HashValue, LettersA, Pow2;
    var run := LettersA(29);
    assert HashValue(run) == 536870847 by {
      HashOfLetters(29);
      TwoTo29();
    }
    HashStep(run, 'U' as schar);
    HashStep(run + ['U' as schar], 'Z' as schar);
  }

  lemma FourDoublings(n: nat)
    ensures Pow2(n + 4) == 16 * Pow2(n)
  {
    assert Pow2(n + 4) == 2 * Pow2(n + 3) && Pow2(n + 3) == 2 * Pow2(n + 2);
    assert Pow2(n + 2) == 2 * Pow2(n + 1) && Pow2(n + 1) == 2 * Pow2(n);
  }

  lemma TwoTo29()
    ensures Pow2(29) == 0x2000_0000
  {
    assert Pow2(1) == 2;
    FourDoublings(1);
    FourDoublings(5);
    FourDoublings(9);
    FourDoublings(13);
    FourDoublings(17);
    FourDoublings(21);
    FourDoublings(25);
  }

  method ComputeHash(s: seq<schar>) returns (h: int)
    ensures h == Bucket(HashValue(s))
  {
    var value := 0;
    var i := 0;
    while i < |s|
      invariant i <= |s| && value == HashValue(s[..i])
    {
      assert s[..i + 1][..i] == s[..i];
      value := Wrap(2 * value + s[i]);
      i := i + 1;
    }
    assert s[..i] == s;
    h := Bucket(value);
  }

  // ----- chains

  ghost function Root(chains: seq<seq<Sym>>, i: nat): Sym?
    requires forall k :: 0 <= k < |chains| ==> chains[k] != []
  {
    if i < |chains| then chains[i][0] else null
  }

  ghost function At(chain: seq<Sym>, j: nat): Sym? {
    if j < |chain| then chain[j] else null
  }

  ghost predicate NonEmpty(chains: seq<seq<Sym>>) {
    forall k :: 0 <= k < |chains| ==> chains[k] != []
  }

  ghost function Members(chains: seq<seq<Sym>>): set<Sym> {
    set i, j | 0 <= i < |chains| && 0 <= j < |chains[i]| :: chains[i][j]
  }

  /** One chain's homonym links. */
  ghost predicate Homonyms(chain: seq<Sym>)
    reads chain`homonym
  {
    forall j :: 0 <= j < |chain| ==> chain[j].homonym == At(chain, j + 1)
  }

  /** The links of a bucket are exactly these chains. */
  ghost predicate Linked(first: Sym?, chains: seq<seq<Sym>>)
    reads Members(chains)
  {
    && NonEmpty(chains)
    && first == Root(chains, 0)
    && (forall i {:trigger chains[i][0].collision} :: 0 <= i < |chains| ==>
          chains[i][0].collision == Root(chains, i + 1))
    && (forall i, j {:trigger chains[i][j].homonym} :: 0 <= i < |chains| && 0 <= j < |chains[i]| ==>
          chains[i][j].homonym == At(chains[i], j + 1))
  }

  /** No symbol stands in two places. */
  ghost predicate NoRepeats(chains: seq<seq<Sym>>) {
    forall i, j, i', j' ::
      (0 <= i < |chains| && 0 <= j < |chains[i]| && 0 <= i' < |chains| && 0 <= j' < |chains[i']|
       && chains[i][j] == chains[i'][j']) ==> i == i' && j == j'
  }

  ghost predicate SameKey(a: Sym, b: Sym) {
    a.str == b.str && a.dbb == b.dbb
  }

  /** Every chain has one key, hashed to this bucket, and no other chain has it. */
  ghost predicate Keyed(h: nat, chains: seq<seq<Sym>>) {
    && NonEmpty(chains)
    && (forall i, j :: 0 <= i < |chains| && 0 <= j < |chains[i]| ==>
          SameKey(chains[i][j], chains[i][0]) && Hashable(chains[i][j].str) && Hash(chains[i][j].str) == h)
    && (forall i, i' :: 0 <= i < |chains| && 0 <= i' < |chains| && SameKey(chains[i][0], chains[i'][0]) ==>
          i == i')
  }

  ghost predicate Good(h: nat, chains: seq<seq<Sym>>) {
    Keyed(h, chains) && NoRepeats(chains)
  }

  // ----- what the operations do to a bucket's chains

  /** The chain of a key, or one past the last. */
  ghost function FindKey(chains: seq<seq<Sym>>, str: seq<schar>, dbb: nat): (k: nat)
    requires NonEmpty(chains)
    ensures k <= |chains|
    ensures k < |chains| ==> chains[k][0].str == str && chains[k][0].dbb == dbb
    ensures forall i :: 0 <= i < k ==> !(chains[i][0].str == str && chains[i][0].dbb == dbb)
    decreases |chains|
  {
    if chains == [] || (chains[0][0].str == str && chains[0][0].dbb == dbb) then 0
    else 1 + FindKey(chains[1..], str, dbb)
  }

  /** Insertion's own test of a root: a null database matches every database. */
  predicate Matches(s: Sym, root: Sym) {
    (s.dbb == NO_DATABASE || s.dbb == root.dbb) && s.str == root.str
  }

  ghost function FirstMatch(chains: seq<seq<Sym>>, s: Sym): (k: nat)
    requires NonEmpty(chains)
    ensures k <= |chains|
    ensures k < |chains| ==> Matches(s, chains[k][0])
    ensures forall i :: 0 <= i < k ==> !Matches(s, chains[i][0])
    decreases |chains|
  {
    if chains == [] || Matches(s, chains[0][0]) then 0 else 1 + FirstMatch(chains[1..], s)
  }

  /** A symbol of no database, met by a root of its name and a database before its own. */
  ghost predicate Shadowed(chains: seq<seq<Sym>>, s: Sym)
    requires NonEmpty(chains)
  {
    && s.dbb == NO_DATABASE
    && exists i :: ShadowedBy(chains, s, i)
  }

  ghost predicate ShadowedBy(chains: seq<seq<Sym>>, s: Sym, i: int)
    requires NonEmpty(chains)
  {
    && 0 <= i < |chains| && chains[i][0].str == s.str && chains[i][0].dbb != NO_DATABASE
    && forall j :: 0 <= j < i ==> !(chains[j][0].str == s.str && chains[j][0].dbb == NO_DATABASE)
  }

  /** Insertion reaches the chain of the symbol's own key just when the symbol is not shadowed. */
  lemma InsertionFindsItsKey(chains: seq<seq<Sym>>, s: Sym)
    requires NonEmpty(chains)
    ensures FirstMatch(chains, s) == FindKey(chains, s.str, s.dbb) <==> !Shadowed(chains, s)
    ensures Shadowed(chains, s) ==> ShadowedBy(chains, s, FirstMatch(chains, s))
  {
    var f, k := FirstMatch(chains, s), FindKey(chains, s.str, s.dbb);
    if s.dbb == NO_DATABASE {
      if f < k {
        assert ShadowedBy(chains, s, f);
      }
      if Shadowed(chains, s) {
        var i :| ShadowedBy(chains, s, i);
        assert Matches(s, chains[i][0]);
        assert f <= i;
      }
    }
  }

  /** What a caller can see to: a symbol with a database is safe, and so is a name no database uses. */
  lemma OthersUnnamed(chains: seq<seq<Sym>>, s: Sym)
    requires NonEmpty(chains)
    requires s.dbb != NO_DATABASE || forall t :: t in Members(chains) && t.str == s.str ==> t.dbb == NO_DATABASE
    ensures !Shadowed(chains, s)
  {
    forall i | 0 <= i < |chains|
      ensures chains[i][0] in Members(chains)
    {
      InMembers(chains, i, 0);
    }
  }

  ghost function Extended(chain: seq<Sym>, s: Sym): seq<Sym>
    requires chain != []
  {
    [chain[0], s] + chain[1..]
  }

  /** A new symbol follows the first root it matches, or starts a chain in front. */
  ghost function Inserted(chains: seq<seq<Sym>>, s: Sym): (after: seq<seq<Sym>>)
    requires NonEmpty(chains)
    ensures NonEmpty(after)
  {
    var k := FirstMatch(chains, s);
    if k < |chains| then chains[k := Extended(chains[k], s)] else [[s]] + chains
  }

  ghost function Position(chain: seq<Sym>, s: Sym): (j: nat)
    ensures j <= |chain|
    ensures j < |chain| ==> chain[j] == s
    ensures forall i :: 0 <= i < j ==> chain[i] != s
    ensures s in chain ==> j < |chain|
  {
    if chain == [] || chain[0] == s then 0 else 1 + Position(chain[1..], s)
  }

  ghost function Without<T>(xs: seq<T>, j: nat): seq<T>
    requires j < |xs|
  {
    xs[..j] + xs[j + 1..]
  }

  /** A symbol leaves its chain; the next one is promoted, and an empty chain leaves the bucket. */
  ghost function Removed(chains: seq<seq<Sym>>, s: Sym): seq<seq<Sym>>
    requires NonEmpty(chains)
  {
    var k := FindKey(chains, s.str, s.dbb);
    if k == |chains| || Position(chains[k], s) == |chains[k]| then chains
    else
      var rest := Without(chains[k], Position(chains[k], s));
      if rest == [] then Without(chains, k) else chains[k := rest]
  }

  /** The chains of other databases, in order. */
  ghost function Kept(chains: seq<seq<Sym>>, dbb: nat): seq<seq<Sym>>
    requires NonEmpty(chains)
    decreases |chains|
  {
    if chains == [] then []
    else
      var n := |chains| - 1;
      Kept(chains[..n], dbb) + (if chains[n][0].dbb == dbb then [] else [chains[n]])
  }

  // ----- and that they keep a bucket good

  lemma InsertedMembers(chains: seq<seq<Sym>>, s: Sym)
    requires NonEmpty(chains)
    ensures Members(Inserted(chains, s)) == Members(chains) + {s}
  {
    var k := FirstMatch(chains, s);
    var after := Inserted(chains, s);
    if k < |chains| {
      var chain := Extended(chains[k], s);
      assert after[k] == chain && chain[1] == s;
      forall t | t in Members(chains)
        ensures t in Members(after)
      {
        var i, j :| 0 <= i < |chains| && 0 <= j < |chains[i]| && chains[i][j] == t;
        assert after[i][if i == k && j > 0 then j + 1 else j] == t;
      }
      forall t | t in Members(after)
        ensures t in Members(chains) + {s}
      {
        var i, j :| 0 <= i < |after| && 0 <= j < |after[i]| && after[i][j] == t;
        assert t == s || t == chains[i][if i == k && j > 0 then j - 1 else j];
      }
    } else {
      assert after[0][0] == s;
      forall t | t in Members(chains)
        ensures t in Members(after)
      {
        var i, j :| 0 <= i < |chains| && 0 <= j < |chains[i]| && chains[i][j] == t;
        assert after[i + 1][j] == t;
      }
      forall t | t in Members(after)
        ensures t in Members(chains) + {s}
      {
        var i, j :| 0 <= i < |after| && 0 <= j < |after[i]| && after[i][j] == t;
        assert t == s || t == chains[i - 1][j];
      }
    }
  }

  lemma InsertedKeyed(h: nat, chains: seq<seq<Sym>>, s: Sym)
    requires Keyed(h, chains) && Hashable(s.str) && Hash(s.str) == h && !Shadowed(chains, s)
    ensures Keyed(h, Inserted(chains, s))
  {
    hide Hashable, Hash;
    InsertionFindsItsKey(chains, s);
    var k := FirstMatch(chains, s);
    var after := Inserted(chains, s);
    if k < |chains| {
      var chain := Extended(chains[k], s);
      assert after[k] == chain;
      assert forall i :: 0 <= i < |chains| ==> after[i][0] == chains[i][0];
      assert forall j :: 2 <= j < |chain| ==> chain[j] == chains[k][j - 1];
    } else {
      assert after[0] == [s];
      assert forall i :: 1 <= i < |after| ==> after[i] == chains[i - 1];
    }
  }

  lemma InsertedOnce(chains: seq<seq<Sym>>, s: Sym)
    requires NonEmpty(chains) && NoRepeats(chains) && s !in Members(chains)
    ensures NoRepeats(Inserted(chains, s))
  {
    var k := FirstMatch(chains, s);
    var after := Inserted(chains, s);
    if k < |chains| {
      forall i, j, i', j' | (0 <= i < |after| && 0 <= j < |after[i]| && 0 <= i' < |after| && 0 <= j' < |after[i']|
                             && after[i][j] == after[i'][j'])
        ensures i == i' && j == j'
      {
        InsertedAt(chains, s, i, j);
        InsertedAt(chains, s, i', j');
      }
    } else {
      forall i, j, i', j' | (0 <= i < |after| && 0 <= j < |after[i]| && 0 <= i' < |after| && 0 <= j' < |after[i']|
                             && after[i][j] == after[i'][j'])
        ensures i == i' && j == j'
      {
        assert i > 0 ==> after[i][j] == chains[i - 1][j];
        assert i' > 0 ==> after[i'][j'] == chains[i' - 1][j'];
      }
    }
  }

  lemma InsertedAt(chains: seq<seq<Sym>>, s: Sym, i: nat, j: nat)
    requires NonEmpty(chains) && FirstMatch(chains, s) < |chains|
    requires i < |chains| && j < |Inserted(chains, s)[i]|
    ensures var k := FirstMatch(chains, s);
            Inserted(chains, s)[i][j]
            == if i != k || j == 0 then chains[i][j] else if j == 1 then s else chains[i][j - 1]
  {
  }

  lemma InsertedIsGood(h: nat, chains: seq<seq<Sym>>, s: Sym)
    requires Good(h, chains) && s !in Members(chains) && Hashable(s.str) && Hash(s.str) == h
    ensures Good(h, Inserted(chains, s)) <==> !Shadowed(chains, s)
    ensures Members(Inserted(chains, s)) == Members(chains) + {s}
  {
    InsertedMembers(chains, s);
    if Shadowed(chains, s) {
      ShadowedIsLost(h, chains, s);
    } else {
      InsertedKeyed(h, chains, s);
      InsertedOnce(chains, s);
    }
  }

  /** A shadowed symbol ends up in a chain of another key, where a search for its own never looks. */
  lemma ShadowedIsLost(h: nat, chains: seq<seq<Sym>>, s: Sym)
    requires Good(h, chains) && s !in Members(chains) && Shadowed(chains, s)
    ensures var after, k := Inserted(chains, s), FirstMatch(chains, s);
            && k < |after| && s in after[k] && !SameKey(s, after[k][0]) && !Good(h, after)
    ensures var after := Inserted(chains, s);
            var own := FindKey(after, s.str, s.dbb);
            own < |after| ==> s !in after[own]
  {
    hide Hashable, Hash, FindKey;
    InsertionFindsItsKey(chains, s);
    var after, k := Inserted(chains, s), FirstMatch(chains, s);
    assert after[k] == Extended(chains[k], s) && after[k][1] == s;
    var own := FindKey(after, s.str, s.dbb);
    if own < |after| {
      assert own != k && after[own] == chains[own];
      assert forall j :: 0 <= j < |chains[own]| ==> chains[own][j] in Members(chains);
    }
  }

  /** One table of a database's and then a keyword of the same name: the keyword is lost. */
  lemma ShadowedKeyword(relation: Sym, keyword: Sym)
    requires relation.str == keyword.str && relation.dbb != NO_DATABASE && keyword.dbb == NO_DATABASE
    ensures var chains := [[relation]];
            && Shadowed(chains, keyword) && Inserted(chains, keyword) == [[relation, keyword]]
            && FindKey(Inserted(chains, keyword), keyword.str, keyword.dbb) == 1
            && FindKey(Inserted(chains, keyword), relation.str, relation.dbb) == 0
  {
    var chains := [[relation]];
    assert ShadowedBy(chains, keyword, 0);
    assert Extended([relation], keyword) == [relation, keyword];
    assert chains[0 := [relation, keyword]] == [[relation, keyword]];
    assert [[relation, keyword]][1..] == [];
  }

  /** Removing what was just inserted restores every chain, its order included. */
  lemma RemoveUndoesInsert(chains: seq<seq<Sym>>, s: Sym)
    requires NonEmpty(chains) && s !in Members(chains) && !Shadowed(chains, s)
    ensures Removed(Inserted(chains, s), s) == chains
  {
    InsertionFindsItsKey(chains, s);
    var k := FindKey(chains, s.str, s.dbb);
    var after := Inserted(chains, s);
    if k < |chains| {
      var chain := Extended(chains[k], s);
      assert after[k] == chain && chain[1] == s;
      assert forall i :: 0 <= i < |chains| ==> after[i][0] == chains[i][0];
      assert FindKey(after, s.str, s.dbb) == k;
      assert chains[k][0] in Members(chains);
      assert Position(chain, s) == 1;
      assert Without(chain, 1) == chains[k];
      assert after[k := chains[k]] == chains;
    } else {
      assert after[0] == [s];
      assert FindKey(after, s.str, s.dbb) == 0;
      assert Without([s], 0) == [];
      assert Without(after, 0) == chains;
    }
  }

  lemma Occurs(chains: seq<seq<Sym>>, t: Sym) returns (i: nat, j: nat)
    requires t in Members(chains)
    ensures i < |chains| && j < |chains[i]| && chains[i][j] == t
  {
    i, j :| 0 <= i < |chains| && 0 <= j < |chains[i]| && chains[i][j] == t;
  }

  /** A symbol stands in the chain of its key. */
  lemma FoundInItsChain(h: nat, chains: seq<seq<Sym>>, s: Sym)
    requires Good(h, chains)
    ensures var k := FindKey(chains, s.str, s.dbb);
            s in Members(chains) <==> k < |chains| && s in chains[k]
  {
    hide Hashable, Hash;
    var k := FindKey(chains, s.str, s.dbb);
    if s in Members(chains) {
      var i, j := Occurs(chains, s);
      assert SameKey(chains[i][j], chains[i][0]);
      assert i == k;
    }
  }

  /** Which places of the old chains the new ones keep. */
  ghost function Shifted(i: nat, from: nat): nat {
    if i < from then i else i + 1
  }

  lemma WithoutAt<T>(xs: seq<T>, j: nat, i: nat)
    requires j < |xs| && i < |xs| - 1
    ensures Without(xs, j)[i] == xs[Shifted(i, j)]
  {
  }

  lemma RemovedIsGood(h: nat, chains: seq<seq<Sym>>, s: Sym)
    requires Good(h, chains) && s in Members(chains)
    ensures Good(h, Removed(chains, s))
    ensures Members(Removed(chains, s)) == Members(chains) - {s}
  {
    FoundInItsChain(h, chains, s);
    var k := FindKey(chains, s.str, s.dbb);
    var p := Position(chains[k], s);
    var rest := Without(chains[k], p);
    if rest == [] {
      ChainRemoved(h, chains, k);
      assert Members([chains[k]]) == {s} by {
        assert forall t :: t in Members([chains[k]]) ==> t == s;
        assert [chains[k]][0][0] == s;
      }
    } else {
      SymbolRemoved(h, chains, k, p);
    }
  }

  lemma OneChain(chain: seq<Sym>)
    ensures forall t :: t in Members([chain]) <==> t in chain
  {
    forall t | t in chain
      ensures t in Members([chain])
    {
      var j :| 0 <= j < |chain| && chain[j] == t;
      assert [chain][0][j] == t;
    }
  }

  lemma ChainRemovedMembers(chains: seq<seq<Sym>>, k: nat)
    requires NoRepeats(chains) && k < |chains|
    ensures Members(Without(chains, k)) == Members(chains) - Members([chains[k]])
  {
    var after := Without(chains, k);
    OneChain(chains[k]);
    forall t | t in Members(after)
      ensures t in Members(chains) && t !in chains[k]
    {
      var i, j := Occurs(after, t);
      WithoutAt(chains, k, i);
      assert chains[Shifted(i, k)][j] == t;
    }
    forall t | t in Members(chains) && t !in chains[k]
      ensures t in Members(after)
    {
      var i, j := Occurs(chains, t);
      assert after[if i < k then i else i - 1][j] == t;
    }
  }

  /** A whole chain leaves. */
  lemma ChainRemoved(h: nat, chains: seq<seq<Sym>>, k: nat)
    requires Good(h, chains) && k < |chains|
    ensures Good(h, Without(chains, k))
    ensures Members(Without(chains, k)) == Members(chains) - Members([chains[k]])
  {
    hide Hashable, Hash, Members;
    ChainRemovedMembers(chains, k);
    var after := Without(chains, k);
    assert forall i :: 0 <= i < |after| ==> after[i] == chains[Shifted(i, k)];
    forall i, j, i', j' | (0 <= i < |after| && 0 <= j < |after[i]| && 0 <= i' < |after| && 0 <= j' < |after[i']|
                           && after[i][j] == after[i'][j'])
      ensures i == i' && j == j'
    {
      assert chains[Shifted(i, k)][j] == chains[Shifted(i', k)][j'];
    }
  }

  /** Where a symbol that stays was before. */
  lemma SymbolRemovedAt(chains: seq<seq<Sym>>, k: nat, p: nat, i: nat, j: nat)
    requires k < |chains| && p < |chains[k]| && i < |chains|
    requires j < |chains[k := Without(chains[k], p)][i]|
    ensures chains[k := Without(chains[k], p)][i][j] == chains[i][if i == k then Shifted(j, p) else j]
  {
  }

  lemma SymbolRemovedMembers(chains: seq<seq<Sym>>, k: nat, p: nat)
    requires NoRepeats(chains) && k < |chains| && p < |chains[k]|
    ensures var after := chains[k := Without(chains[k], p)];
            NoRepeats(after) && Members(after) == Members(chains) - {chains[k][p]}
  {
    var after := chains[k := Without(chains[k], p)];
    var s := chains[k][p];
    forall t | t in Members(after)
      ensures t in Members(chains) && t != s
    {
      var i, j := Occurs(after, t);
      SymbolRemovedAt(chains, k, p, i, j);
      InMembers(chains, i, if i == k then Shifted(j, p) else j);
    }
    forall t | t in Members(chains) && t != s
      ensures t in Members(after)
    {
      var i, j := Occurs(chains, t);
      assert after[i][if i == k && j > p then j - 1 else j] == t;
    }
    hide Members, Without;
    forall i, j, i', j' | (0 <= i < |after| && 0 <= j < |after[i]| && 0 <= i' < |after| && 0 <= j' < |after[i']|
                           && after[i][j] == after[i'][j'])
      ensures i == i' && j == j'
    {
      SymbolRemovedAt(chains, k, p, i, j);
      SymbolRemovedAt(chains, k, p, i', j');
    }
  }

  /** One symbol of a longer chain leaves; if it was the root, the next one heads the chain. */
  lemma SymbolRemoved(h: nat, chains: seq<seq<Sym>>, k: nat, p: nat)
    requires Good(h, chains) && k < |chains| && p < |chains[k]| && |chains[k]| > 1
    ensures var after := chains[k := Without(chains[k], p)];
            Good(h, after) && Members(after) == Members(chains) - {chains[k][p]}
  {
    SymbolRemovedMembers(chains, k, p);
    hide Hashable, Hash, Members, NoRepeats;
    var after := chains[k := Without(chains[k], p)];
    forall i: nat, j: nat | i < |after| && j < |after[i]|
      ensures SameKey(after[i][j], chains[i][0]) && Hashable(after[i][j].str) && Hash(after[i][j].str) == h
    {
      SymbolRemovedAt(chains, k, p, i, j);
    }
    forall i | 0 <= i < |after|
      ensures SameKey(after[i][0], chains[i][0])
    {
      SymbolRemovedAt(chains, k, p, i, 0);
    }
  }

  /** What stays is a subsequence of the chains, and exactly the symbols of other databases. */
  lemma {:induction false} KeptIsGood(h: nat, chains: seq<seq<Sym>>, dbb: nat)
    requires Good(h, chains)
    ensures NonEmpty(Kept(chains, dbb)) && Good(h, Kept(chains, dbb))
    ensures Members(Kept(chains, dbb)) == set t | t in Members(chains) && t.dbb != dbb
    decreases |chains|
  {
    if chains != [] {
      var n := |chains| - 1;
      LastChain(h, chains);
      KeptIsGood(h, chains[..n], dbb);
      var kept, last := Kept(chains[..n], dbb), chains[n];
      hide Good, Members;
      if last[0].dbb != dbb {
        KeptAppend(h, chains, kept);
        assert Kept(chains, dbb) == kept + [last];
      } else {
        assert Kept(chains, dbb) == kept;
      }
    } else {
      assert Members([]) == {};
    }
  }

  lemma LastChain(h: nat, chains: seq<seq<Sym>>)
    requires Good(h, chains) && chains != []
    ensures var n := |chains| - 1;
            && Good(h, chains[..n])
            && Members(chains) == Members(chains[..n]) + Members([chains[n]])
            && Members(chains[..n]) !! Members([chains[n]])
            && (forall t :: t in Members([chains[n]]) ==> SameKey(t, chains[n][0]))
            && (forall t :: t in Members(chains[..n]) ==> !SameKey(t, chains[n][0]))
  {
    var n := |chains| - 1;
    ChainRemoved(h, chains, n);
    assert Without(chains, n) == chains[..n];
    hide Hashable, Hash;
    forall t | t in Members([chains[n]])
      ensures SameKey(t, chains[n][0]) && t in Members(chains)
    {
      var i, j := Occurs([chains[n]], t);
      assert chains[n][j] == t;
    }
    forall t | t in Members(chains[..n])
      ensures !SameKey(t, chains[n][0])
    {
      var i, j := Occurs(chains[..n], t);
      assert chains[i][j] == t && SameKey(chains[i][j], chains[i][0]);
    }
  }

  lemma AppendMembers(kept: seq<seq<Sym>>, last: seq<Sym>)
    ensures Members(kept + [last]) == Members(kept) + Members([last])
  {
    var after := kept + [last];
    forall t | t in Members(after)
      ensures t in Members(kept) + Members([last])
    {
      var i, j := Occurs(after, t);
      if i == |kept| {
        assert [last][0][j] == t;
      } else {
        assert kept[i][j] == t;
      }
    }
    forall t | t in Members(kept) + Members([last])
      ensures t in Members(after)
    {
      if t in Members(kept) {
        var i, j := Occurs(kept, t);
        assert after[i][j] == t;
      } else {
        var i, j := Occurs([last], t);
        assert after[|kept|][j] == t;
      }
    }
  }

  lemma KeptAppend(h: nat, chains: seq<seq<Sym>>, kept: seq<seq<Sym>>)
    requires Good(h, chains) && chains != [] && Good(h, kept)
    requires forall t :: t in Members(kept) ==> t in Members(chains[..|chains| - 1])
    ensures var last := chains[|chains| - 1];
            Good(h, kept + [last]) && Members(kept + [last]) == Members(kept) + Members([last])
  {
    var n := |chains| - 1;
    var last := chains[n];
    LastChain(h, chains);
    AppendMembers(kept, last);
    KeptOnce(chains, kept);
    hide Hashable, Hash, Members, NoRepeats;
    forall i | 0 <= i < |kept|
      ensures !SameKey(kept[i][0], last[0])
    {
      InMembers(kept, i, 0);
    }
  }

  lemma KeptOnce(chains: seq<seq<Sym>>, kept: seq<seq<Sym>>)
    requires NoRepeats(chains) && NoRepeats(kept) && chains != []
    requires Members(kept) !! Members([chains[|chains| - 1]])
    ensures NoRepeats(kept + [chains[|chains| - 1]])
  {
    var n := |chains| - 1;
    var after := kept + [chains[n]];
    forall i: nat, j: nat | i < |after| && j < |after[i]|
      ensures if i < |kept| then after[i][j] == kept[i][j] && after[i][j] in Members(kept)
              else after[i][j] == chains[n][j] && after[i][j] in Members([chains[n]])
    {
      if i == |kept| {
        InMembers([chains[n]], 0, j);
      }
    }
  }

  // ----- the operations on links

  /** The bucket reached from first is these chains, of these keys. */
  ghost predicate IsBucket(h: nat, first: Sym?, chains: seq<seq<Sym>>)
    reads Members(chains)
  {
    NonEmpty(chains) && Good(h, chains) && Linked(first, chains)
  }

  lemma InMembers(chains: seq<seq<Sym>>, i: nat, j: nat)
    requires i < |chains| && j < |chains[i]|
    ensures chains[i][j] in Members(chains)
  {
  }

  lemma MatchFoundAt(chains: seq<seq<Sym>>, s: Sym, k: nat)
    requires NonEmpty(chains) && k <= |chains|
    requires forall i :: 0 <= i < k ==> !Matches(s, chains[i][0])
    requires k < |chains| ==> Matches(s, chains[k][0])
    ensures FirstMatch(chains, s) == k
  {
  }

  /** The walk along the collision links. */
  method FindRoot(first: Sym?, s: Sym, ghost chains: seq<seq<Sym>>) returns (root: Sym?, ghost k: nat)
    requires Linked(first, chains)
    ensures k == FirstMatch(chains, s) && root == Root(chains, FirstMatch(chains, s))
  {
    root := first;
    k := 0;
    while root != null
      invariant k <= |chains| && root == Root(chains, k)
      invariant forall i :: 0 <= i < k ==> !Matches(s, chains[i][0])
      decreases |chains| - k
    {
      if Matches(s, root) {
        break;
      }
      root := root.collision;
      k := k + 1;
    }
    MatchFoundAt(chains, s, k);
  }

  method InsertInBucket(first: Sym?, s: Sym, ghost h: nat, ghost chains: seq<seq<Sym>>) returns (newFirst: Sym?)
    requires Good(h, chains) && Linked(first, chains) && s !in Members(chains)
    requires Hashable(s.str) && Hash(s.str) == h && s.collision == null && s.homonym == null
    modifies Members(chains), s
    ensures Linked(newFirst, Inserted(chains, s))
  {
    ghost var k;
    var root;
    root, k := FindRoot(first, s, chains);
    hide Hashable, Hash, Inserted, Linked, Good, Members, FirstMatch, Keyed, NoRepeats;
    if root != null {
      LinkBehind(first, root, s, h, chains, k);
      newFirst := first;
    } else {
      newFirst := LinkInFront(first, s, h, chains);
    }
  }

  method LinkBehind(first: Sym?, root: Sym, s: Sym, ghost h: nat, ghost chains: seq<seq<Sym>>, ghost k: nat)
    requires Good(h, chains) && Linked(first, chains) && s !in Members(chains) && s.collision == null
    requires k < |chains| && k == FirstMatch(chains, s) && root == chains[k][0]
    modifies Members(chains), s
    ensures Linked(first, Inserted(chains, s))
  {
    hide Hashable, Hash, Good, Members, FirstMatch, Keyed, NoRepeats, Inserted, Extended;
    InMembers(chains, k, 0);
    s.homonym := root.homonym;
    root.homonym := s;
    forall i, j | 0 <= i < |chains| && 0 <= j < |chains[i]| && !(i == k && j == 0)
      ensures chains[i][j].homonym == At(chains[i], j + 1)
    {
      InMembers(chains, i, j);
      OnePlace(h, chains, i, j, k, 0);
    }
    forall i | 0 <= i < |chains|
      ensures chains[i][0].collision == Root(chains, i + 1)
    {
      InMembers(chains, i, 0);
    }
    ThreadedLinks(first, chains, s, k);
  }

  /** All links are as they were, but a chain's root leads to the new symbol first. */
  ghost predicate Threaded(first: Sym?, chains: seq<seq<Sym>>, s: Sym, k: nat)
    requires NonEmpty(chains) && k < |chains|
    reads s, Members(chains)
  {
    && first == Root(chains, 0)
    && (forall i, j {:trigger chains[i][j].homonym} ::
          0 <= i < |chains| && 0 <= j < |chains[i]| && !(i == k && j == 0) ==>
          chains[i][j].homonym == At(chains[i], j + 1))
    && (forall i {:trigger chains[i][0].collision} :: 0 <= i < |chains| ==>
          chains[i][0].collision == Root(chains, i + 1))
    && chains[k][0].homonym == s && s.homonym == At(chains[k], 1)
  }

  lemma ThreadedLinks(first: Sym?, chains: seq<seq<Sym>>, s: Sym, k: nat)
    requires NonEmpty(chains) && k < |chains| && k == FirstMatch(chains, s)
    requires Threaded(first, chains, s, k)
    ensures Linked(first, Inserted(chains, s))
  {
    BehindShape(chains, s, k);
    hide Members, FirstMatch, Inserted, Extended;
  }

  lemma BehindShape(chains: seq<seq<Sym>>, s: Sym, k: nat)
    requires NonEmpty(chains) && k < |chains| && k == FirstMatch(chains, s)
    ensures var after := Inserted(chains, s);
            && NonEmpty(after) && |after| == |chains| && |after[k]| == |chains[k]| + 1
            && (forall i :: 0 <= i < |chains| && i != k ==> after[i] == chains[i])
            && (forall i :: 0 <= i < |chains| ==> after[i][0] == chains[i][0])
            && after[k][1] == s
            && forall j :: 2 <= j < |after[k]| ==> after[k][j] == chains[k][j - 1]
  {
  }

  method LinkInFront(first: Sym?, s: Sym, ghost h: nat, ghost chains: seq<seq<Sym>>) returns (newFirst: Sym?)
    requires Good(h, chains) && Linked(first, chains) && s !in Members(chains) && s.homonym == null
    requires FirstMatch(chains, s) == |chains|
    modifies s
    ensures Linked(newFirst, Inserted(chains, s))
  {
    hide Hashable, Hash, Inserted, Good, Members, FirstMatch, Keyed, NoRepeats;
    s.collision := first;
    newFirst := s;
    ghost var after: seq<seq<Sym>> := Inserted(chains, s);
    FrontShape(chains, s);
    forall i: nat, j: nat | i < |after| && j < |after[i]|
      ensures after[i][j].homonym == At(after[i], j + 1)
    {
      if i > 0 {
        InMembers(chains, i - 1, j);
      }
    }
    forall i: nat | i < |after|
      ensures after[i][0].collision == Root(after, i + 1)
    {
      if i > 0 {
        InMembers(chains, i - 1, 0);
      }
    }
  }

  lemma FrontShape(chains: seq<seq<Sym>>, s: Sym)
    requires NonEmpty(chains) && FirstMatch(chains, s) == |chains|
    ensures Inserted(chains, s) == [[s]] + chains && NonEmpty(Inserted(chains, s))
  {}

  // ----- removal

  lemma PlaceOf(h: nat, chains: seq<seq<Sym>>, s: Sym, i: nat, j: nat)
    requires Good(h, chains) && i < |chains| && j < |chains[i]| && chains[i][j] == s
    ensures FindKey(chains, s.str, s.dbb) == i && Position(chains[i], s) == j
    ensures Removed(chains, s)
            == if |chains[i]| == 1 then Without(chains, i) else chains[i := Without(chains[i], j)]
  {
    hide Hashable, Hash;
    InMembers(chains, i, j);
    FoundInItsChain(h, chains, s);
    var k := FindKey(chains, s.str, s.dbb);
    assert SameKey(chains[i][j], chains[i][0]);
    assert SameKey(chains[k][0], chains[i][0]);
  }

  /** A homonym is linked past. */
  method UnlinkHomonym(first: Sym?, prev: Sym, s: Sym, ghost h: nat, ghost chains: seq<seq<Sym>>, ghost i: nat, ghost j: nat)
    requires Good(h, chains) && Linked(first, chains)
    requires i < |chains| && 0 < j < |chains[i]| && s == chains[i][j] && prev == chains[i][j - 1]
    modifies prev
    ensures Linked(first, chains[i := Without(chains[i], j)])
  {
    hide Hashable, Hash, Members, FindKey, Keyed, NoRepeats;
    InMembers(chains, i, j);
    prev.homonym := s.homonym;
    ghost var after: seq<seq<Sym>> := chains[i := Without(chains[i], j)];
    forall i': nat, j': nat | i' < |after| && j' < |after[i']|
      ensures after[i'][j'].homonym == At(after[i'], j' + 1)
    {
      var was := if i' == i then Shifted(j', j) else j';
      assert after[i'][j'] == chains[i'][was];
      if !(i' == i && j' == j - 1) {
        OnePlace(h, chains, i', was, i, j - 1);
      }
    }
    forall i': nat | i' < |after|
      ensures after[i'][0].collision == Root(after, i' + 1)
    {
      assert after[i'][0] == chains[i'][0];
    }
  }

  lemma OnePlace(h: nat, chains: seq<seq<Sym>>, i: nat, j: nat, i': nat, j': nat)
    requires Good(h, chains) && i < |chains| && j < |chains[i]| && i' < |chains| && j' < |chains[i']|
    requires i != i' || j != j'
    ensures chains[i][j] != chains[i'][j']
  {
  }

  /** The chains once the root of one of them is gone. */
  ghost function RootRemoved(chains: seq<seq<Sym>>, i: nat): seq<seq<Sym>>
    requires NonEmpty(chains) && i < |chains|
  {
    if |chains[i]| == 1 then Without(chains, i) else chains[i := Without(chains[i], 0)]
  }

  ghost function RootBefore(chains: seq<seq<Sym>>, i: nat): Sym?
    requires NonEmpty(chains) && i <= |chains|
  {
    if i == 0 then null else chains[i - 1][0]
  }

  ghost function Present(x: Sym?): set<Sym> {
    if x == null then {} else {x}
  }

  method SkipRoot(first: Sym?, prev: Sym?, s: Sym) returns (newFirst: Sym?)
    requires prev != s && s.homonym != s && (prev == null || prev != s.homonym)
    modifies Present(prev)`collision, Present(s.homonym)`collision
    ensures var next := if s.homonym != null then s.homonym else old(s.collision);
            newFirst == (if prev == null then next else first) && (prev != null ==> prev.collision == next)
    ensures s.homonym != null ==> s.homonym.collision == old(s.collision)
  {
    newFirst := first;
    var next := s.collision;
    if s.homonym != null {
      s.homonym.collision := s.collision;
      next := s.homonym;
    }
    if prev == null {
      newFirst := next;
    } else {
      prev.collision := next;
    }
  }

  /** A root leaves the collision list; its homonym, if any, is promoted into its place. */
  method UnlinkRoot(first: Sym?, prev: Sym?, s: Sym, ghost h: nat, ghost chains: seq<seq<Sym>>, ghost i: nat)
    returns (newFirst: Sym?)
    requires Good(h, chains) && Linked(first, chains)
    requires i < |chains| && s == chains[i][0] && prev == RootBefore(chains, i)
    modifies Members(chains)
    ensures Linked(newFirst, RootRemoved(chains, i))
  {
    hide Hashable, Hash, Members, FindKey, Keyed, NoRepeats;
    InMembers(chains, i, 0);
    if i > 0 {
      InMembers(chains, i - 1, 0);
      OnePlace(h, chains, i - 1, 0, i, 0);
    }
    if |chains[i]| > 1 {
      InMembers(chains, i, 1);
      OnePlace(h, chains, i, 0, i, 1);
      if i > 0 {
        OnePlace(h, chains, i - 1, 0, i, 1);
      }
    }
    newFirst := SkipRoot(first, prev, s);
    forall k, j | 0 <= k < |chains| && 0 <= j < |chains[k]|
      ensures chains[k][j].homonym == At(chains[k], j + 1)
    {
      InMembers(chains, k, j);
    }
    forall k | 0 <= k < |chains| && k != i && k != i - 1
      ensures chains[k][0].collision == Root(chains, k + 1)
    {
      InMembers(chains, k, 0);
      if |chains[i]| > 1 {
        OnePlace(h, chains, k, 0, i, 1);
      }
      if i > 0 {
        OnePlace(h, chains, k, 0, i - 1, 0);
      }
    }
    SkippedLinks(newFirst, chains, i);
  }

  /** All links are as they were, but the i-th chain is entered behind its root. */
  ghost predicate Skipped(first: Sym?, chains: seq<seq<Sym>>, i: nat)
    requires NonEmpty(chains) && i < |chains|
    reads Members(chains)
  {
    var next := if |chains[i]| > 1 then chains[i][1] else Root(chains, i + 1);
    && (forall k, j {:trigger chains[k][j].homonym} :: 0 <= k < |chains| && 0 <= j < |chains[k]| ==>
          chains[k][j].homonym == At(chains[k], j + 1))
    && (forall k {:trigger chains[k][0].collision} :: 0 <= k < |chains| && k != i && k != i - 1 ==>
          chains[k][0].collision == Root(chains, k + 1))
    && (|chains[i]| > 1 ==> chains[i][1].collision == Root(chains, i + 1))
    && (i > 0 ==> chains[i - 1][0].collision == next)
    && first == if i == 0 then next else chains[0][0]
  }

  lemma SkippedLinks(first: Sym?, chains: seq<seq<Sym>>, i: nat)
    requires NonEmpty(chains) && i < |chains| && Skipped(first, chains, i)
    ensures Linked(first, RootRemoved(chains, i))
  {
    hide Members;
    var after: seq<seq<Sym>> := RootRemoved(chains, i);
    if |chains[i]| == 1 {
      forall i': nat | i' < |after|
        ensures after[i'] == chains[Shifted(i', i)]
      {
        assert Root(after, i' + 1) == Root(chains, Shifted(i' + 1, i));
      }
    } else {
      forall j: nat | j < |after[i]|
        ensures after[i][j] == chains[i][j + 1]
      {
      }
    }
  }

  /** The search for a symbol by its address, along the roots and each root's homonyms. */
  method RemoveFromBucket(first: Sym?, s: Sym, ghost h: nat, ghost chains: seq<seq<Sym>>)
    returns (newFirst: Sym?, found: bool)
    requires Good(h, chains) && Linked(first, chains)
    modifies Members(chains)
    ensures found <==> s in Members(chains)
    ensures NonEmpty(Removed(chains, s)) && Linked(newFirst, Removed(chains, s))
  {
    hide Hashable, Hash, Members, FindKey, Keyed, NoRepeats, Removed;
    newFirst, found := first, false;
    var prev, root: Sym? := null, first;
    ghost var i := 0;
    while root != null && !found
      invariant i <= |chains|
      invariant found ==> s in Members(chains) && NonEmpty(Removed(chains, s)) && Linked(newFirst, Removed(chains, s))
      invariant !found ==> newFirst == first && Linked(first, chains) && prev == RootBefore(chains, i) && root == Root(chains, i)
      invariant !found ==> forall k :: 0 <= k < i ==> s !in chains[k]
      decreases |chains| - i, !found
    {
      if root == s {
        InMembers(chains, i, 0);
        PlaceOf(h, chains, s, i, 0);
        RemovedIsGood(h, chains, s);
        newFirst := UnlinkRoot(first, prev, s, h, chains, i);
        found := true;
      } else {
        found := RemoveHomonym(first, root, s, h, chains, i);
        if !found {
          prev, root := root, root.collision;
          i := i + 1;
        }
      }
    }
    if !found {
      NotFound(h, chains, s);
    }
  }

  lemma NotFound(h: nat, chains: seq<seq<Sym>>, s: Sym)
    requires Good(h, chains) && forall k :: 0 <= k < |chains| ==> s !in chains[k]
    ensures s !in Members(chains) && Removed(chains, s) == chains
  {
  }

  method RemoveHomonym(first: Sym?, root: Sym, s: Sym, ghost h: nat, ghost chains: seq<seq<Sym>>, ghost i: nat)
    returns (found: bool)
    requires Good(h, chains) && Linked(first, chains) && i < |chains| && root == chains[i][0] && s != root
    modifies Members(chains)
    ensures found <==> s in chains[i]
    ensures found ==> s in Members(chains) && NonEmpty(Removed(chains, s)) && Linked(first, Removed(chains, s))
    ensures !found ==> Linked(first, chains)
  {
    hide Hashable, Hash, Members, FindKey, Keyed, NoRepeats, Removed;
    var prev := root;
    ghost var j := 1;
    while prev.homonym != null
      invariant 1 <= j <= |chains[i]| && prev == chains[i][j - 1]
      invariant Linked(first, chains)
      invariant forall k :: 0 <= k < j ==> chains[i][k] != s
      decreases |chains[i]| - j
    {
      if prev.homonym == s {
        InMembers(chains, i, j);
        PlaceOf(h, chains, s, i, j);
        RemovedIsGood(h, chains, s);
        InMembers(chains, i, j - 1);
        UnlinkHomonym(first, prev, s, h, chains, i, j);
        return true;
      }
      prev := prev.homonym;
      j := j + 1;
    }
    found := false;
  }

  // ----- a database goes away

  /** Every homonym of a finished database is linked past, so none is left to promote. */
  method DropHomonyms(first: Sym?, root: Sym, dbb: nat, ghost h: nat, ghost chains: seq<seq<Sym>>, ghost i: nat)
    requires Good(h, chains) && Linked(first, chains) && i < |chains| && root == chains[i][0]
    modifies Members(chains)
    ensures var after := chains[i := if root.dbb == dbb then [root] else chains[i]];
            Good(h, after) && Linked(first, after) && Members(after) <= Members(chains)
  {
    hide Hashable, Hash, Members, FindKey, NoRepeats;
    var prev := root;
    ghost var left := chains[i];
    ghost var j := 1;
    assert chains[i := left] == chains;
    while prev.homonym != null
      invariant Good(h, chains[i := left]) && Linked(first, chains[i := left])
      invariant Members(chains[i := left]) <= Members(chains)
      invariant 1 <= j <= |left| && prev == left[j - 1] && left[0] == root
      invariant if root.dbb == dbb then j == 1 else left == chains[i]
      decreases |left| - j
    {
      ghost var now := chains[i := left];
      var symbol := prev.homonym;
      assert SameKey(now[i][j], now[i][0]);
      if symbol.dbb == dbb {
        SymbolRemoved(h, now, i, j);
        InMembers(now, i, j - 1);
        UnlinkHomonym(first, prev, symbol, h, now, i, j);
        left := Without(left, j);
        assert now[i := left] == chains[i := left];
      } else {
        prev := symbol;
        j := j + 1;
      }
    }
    assert chains[i := left][i][j - 1].homonym == At(left, j);
    assert root.dbb == dbb ==> left == [root];
  }

  /** One root and its homonyms: they go, or the walk passes on. */
  method FinishChain(first: Sym?, prev: Sym?, root: Sym, dbb: nat, ghost h: nat, ghost chains: seq<seq<Sym>>, ghost i: nat)
    returns (newFirst: Sym?, newPrev: Sym?, next: Sym?)
    requires Good(h, chains) && Linked(first, chains) && i < |chains|
    requires root == chains[i][0] && prev == RootBefore(chains, i)
    modifies Members(chains)
    ensures var after := if root.dbb == dbb then Without(chains, i) else chains;
            var i' := if root.dbb == dbb then i else i + 1;
            && Good(h, after) && Linked(newFirst, after) && Members(after) <= Members(chains)
            && newPrev == RootBefore(after, i') && next == Root(after, i')
  {
    hide Hashable, Hash, Members, FindKey, Keyed, NoRepeats;
    DropHomonyms(first, root, dbb, h, chains, i);
    newFirst := first;
    if root.dbb == dbb {
      ghost var cut := chains[i := [root]];
      ChainRemoved(h, cut, i);
      newFirst := UnlinkRoot(first, prev, root, h, cut, i);
      assert RootRemoved(cut, i) == Without(chains, i);
      newPrev := prev;
      next := if prev == null then newFirst else prev.collision;
    } else {
      assert chains[i := chains[i]] == chains;
      newPrev, next := root, root.collision;
    }
  }

  lemma KeptStep(chains: seq<seq<Sym>>, k: nat, dbb: nat)
    requires NonEmpty(chains) && k < |chains|
    ensures Kept(chains[..k + 1], dbb)
            == Kept(chains[..k], dbb) + if chains[k][0].dbb == dbb then [] else [chains[k]]
  {
    assert chains[..k + 1][..k] == chains[..k];
  }

  lemma WithoutMiddle(kept: seq<seq<Sym>>, chains: seq<seq<Sym>>, k: nat)
    requires k < |chains|
    ensures (kept + chains[k..])[|kept|] == chains[k]
    ensures Without(kept + chains[k..], |kept|) == kept + chains[k + 1..]
    ensures kept + chains[k..] == kept + [chains[k]] + chains[k + 1..]
  {
  }

  method FinishBucket(first: Sym?, dbb: nat, ghost h: nat, ghost chains: seq<seq<Sym>>) returns (newFirst: Sym?)
    requires Good(h, chains) && Linked(first, chains)
    modifies Members(chains)
    ensures NonEmpty(Kept(chains, dbb)) && Linked(newFirst, Kept(chains, dbb))
  {
    hide Hashable, Hash, Members, FindKey, NoRepeats, Linked, Kept, Without;
    newFirst := first;
    var prev, chain: Sym? := null, first;
    ghost var k := 0;
    ghost var kept: seq<seq<Sym>> := [];
    ghost var now := chains;
    assert kept + chains[k..] == chains;
    StartOfFinish(first, chains, dbb);
    while chain != null
      invariant k <= |chains| && kept == Kept(chains[..k], dbb) && now == kept + chains[k..]
      invariant Good(h, now) && Linked(newFirst, now) && Members(now) <= Members(chains)
      invariant prev == RootBefore(now, |kept|) && chain == Root(now, |kept|)
      decreases |chains| - k
    {
      var root := chain;
      WithoutMiddle(kept, chains, k);
      KeptStep(chains, k, dbb);
      newFirst, prev, chain := FinishChain(newFirst, prev, root, dbb, h, now, |kept|);
      if root.dbb == dbb {
        now := kept + chains[k + 1..];
      } else {
        kept := kept + [chains[k]];
      }
      k := k + 1;
    }
    assert chains[..k] == chains && kept + chains[k..] == kept;
  }

  lemma StartOfFinish(first: Sym?, chains: seq<seq<Sym>>, dbb: nat)
    requires Linked(first, chains)
    ensures Kept(chains[..0], dbb) == [] && first == Root(chains, 0)
  {
  }

  // ----- the table

  ghost function AllMembers(buckets: seq<seq<seq<Sym>>>): set<Sym> {
    set h, t | 0 <= h < |buckets| && t in Members(buckets[h]) :: t
  }

  /** Which symbol of one key a type search returns: the first along the homonyms, unless too new a keyword. */
  ghost function Chosen(chain: seq<Sym>, kind: nat, parserVersion: nat): (r: Sym?)
    ensures r != null ==> r in chain && r.kind == kind && !(kind == SYM_KEYWORD && parserVersion < r.version)
    ensures r == null ==> (forall t :: t in chain ==> t.kind != kind)
                          || (kind == SYM_KEYWORD && exists t :: t in chain && t.kind == kind && parserVersion < t.version)
  {
    if chain == [] then null
    else if chain[0].kind != kind then Chosen(chain[1..], kind, parserVersion)
    else if kind == SYM_KEYWORD && parserVersion < chain[0].version then null
    else chain[0]
  }

  /** The live symbols a lookup is about, as a plain collection. */
  ghost function Candidates(symbols: set<Sym>, dbb: nat, str: seq<schar>, kind: nat): set<Sym> {
    set t | t in symbols && t.dbb == dbb && t.str == str && t.kind == kind
  }

  method LookupInBucket(first: Sym?, dbb: nat, str: seq<schar>, kind: nat, parserVersion: nat, ghost h: nat,
                        ghost chains: seq<seq<Sym>>)
    returns (symbol: Sym?)
    requires Linked(first, chains)
    ensures var k := FindKey(chains, str, dbb);
            symbol == if k == |chains| then null else Chosen(chains[k], kind, parserVersion)
  {
    symbol := first;
    ghost var k := 0;
    while symbol != null
      invariant k <= |chains| && symbol == Root(chains, k)
      invariant forall i :: 0 <= i < k ==> !(chains[i][0].str == str && chains[i][0].dbb == dbb)
      decreases |chains| - k
    {
      if dbb == symbol.dbb && str == symbol.str {
        symbol := ChooseHomonym(symbol, kind, parserVersion, chains, k);
        return;
      }
      symbol := symbol.collision;
      k := k + 1;
    }
  }

  method ChooseHomonym(root: Sym, kind: nat, parserVersion: nat, ghost chains: seq<seq<Sym>>, ghost k: nat)
    returns (symbol: Sym?)
    requires k < |chains| && Homonyms(chains[k]) && chains[k] != [] && root == chains[k][0]
    ensures symbol == Chosen(chains[k], kind, parserVersion)
  {
    symbol := root;
    ghost var j := 0;
    assert chains[k][j..] == chains[k];
    while symbol != null && symbol.kind != kind
      invariant j <= |chains[k]| && symbol == At(chains[k], j)
      invariant Chosen(chains[k], kind, parserVersion) == Chosen(chains[k][j..], kind, parserVersion)
      decreases |chains[k]| - j
    {
      symbol := symbol.homonym;
      j := j + 1;
    }
    if symbol != null && parserVersion < symbol.version && kind == SYM_KEYWORD {
      symbol := null;
    }
  }

  /** The answer in terms of the collection of live symbols alone. */
  lemma LookupIsInTheCollection(h: nat, chains: seq<seq<Sym>>, symbols: set<Sym>, dbb: nat, str: seq<schar>, kind: nat,
                                parserVersion: nat)
    requires Good(h, chains)
    requires forall t :: t in symbols && t.str == str ==> t in Members(chains)
    requires forall t :: t in Members(chains) ==> t in symbols
    ensures var k := FindKey(chains, str, dbb);
            var r := if k == |chains| then null else Chosen(chains[k], kind, parserVersion);
            IsAnswer(r, Candidates(symbols, dbb, str, kind), kind, parserVersion)
  {
    hide Hashable, Hash;
    var k := FindKey(chains, str, dbb);
    forall t | t in Candidates(symbols, dbb, str, kind)
      ensures k < |chains| && t in chains[k]
    {
      FoundInItsChain(h, chains, t);
    }
    if k < |chains| {
      forall t | t in chains[k]
        ensures t in symbols && t.dbb == dbb && t.str == str
      {
        var j :| 0 <= j < |chains[k]| && chains[k][j] == t;
        InMembers(chains, k, j);
        assert SameKey(chains[k][j], chains[k][0]);
      }
    }
  }

  /** One of the candidates, and none only if there is none or a too new keyword stands for them. */
  ghost predicate IsAnswer(r: Sym?, candidates: set<Sym>, kind: nat, parserVersion: nat) {
    && (r != null ==> r in candidates && !(kind == SYM_KEYWORD && parserVersion < r.version))
    && (r == null ==>
          candidates == {} || (kind == SYM_KEYWORD && exists t :: t in candidates && parserVersion < t.version))
  }

  /** Where at most one symbol bears the name, database and type, that leaves one answer. */
  lemma AnswerIsUnique(r: Sym?, candidates: set<Sym>, kind: nat, parserVersion: nat, t: Sym)
    requires IsAnswer(r, candidates, kind, parserVersion) && candidates <= {t}
    ensures r == if candidates == {} || (kind == SYM_KEYWORD && parserVersion < t.version) then null else t
  {
    assert candidates == {} || candidates == {t};
  }

  lemma HashIsBucket(s: seq<schar>)
    requires Hashable(s)
    ensures Hash(s) == Bucket(HashValue(s)) < HASH_SIZE
  {
  }

  lemma RemovedOrNot(h: nat, chains: seq<seq<Sym>>, s: Sym)
    requires Good(h, chains)
    ensures NonEmpty(Removed(chains, s)) && Good(h, Removed(chains, s))
    ensures Members(Removed(chains, s)) == Members(chains) - {s}
  {
    FoundInItsChain(h, chains, s);
    if s in Members(chains) {
      RemovedIsGood(h, chains, s);
    }
  }

  /** Finishing every bucket leaves the other databases' symbols. */
  lemma FinishedMembers(before: seq<seq<seq<Sym>>>, after: seq<seq<seq<Sym>>>, dbb: nat)
    requires AllGood(before) && |after| == HASH_SIZE
    requires forall h :: 0 <= h < HASH_SIZE ==> NonEmpty(before[h]) && after[h] == Kept(before[h], dbb)
    ensures AllMembers(after) == set t | t in AllMembers(before) && t.dbb != dbb
  {
    hide Good, Members, Kept;
    forall h | 0 <= h < HASH_SIZE
      ensures Members(after[h]) == set t | t in Members(before[h]) && t.dbb != dbb
    {
      KeptIsGood(h, before[h], dbb);
    }
    forall t | t in AllMembers(before) && t.dbb != dbb
      ensures t in AllMembers(after)
    {
      var h :| 0 <= h < HASH_SIZE && t in Members(before[h]);
      assert t in Members(after[h]);
    }
  }

  ghost predicate AllGood(buckets: seq<seq<seq<Sym>>>) {
    |buckets| == HASH_SIZE && forall h :: 0 <= h < HASH_SIZE ==> Good(h, buckets[h])
  }

  /** No symbol is in two buckets, since its name hashes to one. */
  lemma BucketsApart(buckets: seq<seq<seq<Sym>>>, h: nat)
    requires AllGood(buckets) && h < HASH_SIZE
    ensures forall i :: 0 <= i < HASH_SIZE && i != h ==> Members(buckets[i]) !! Members(buckets[h])
    ensures forall i :: 0 <= i < HASH_SIZE ==> Members(buckets[i]) <= AllMembers(buckets)
    ensures forall t :: t in AllMembers(buckets) && Hashable(t.str) && Hash(t.str) == h ==> t in Members(buckets[h])
  {
    forall i, t | 0 <= i < HASH_SIZE && t in Members(buckets[i])
      ensures Hashable(t.str) && Hash(t.str) == i
    {
      var k, j := Occurs(buckets[i], t);
    }
  }

  lemma BucketReplaced(buckets: seq<seq<seq<Sym>>>, h: nat, chains: seq<seq<Sym>>)
    requires AllGood(buckets) && h < HASH_SIZE
    ensures AllMembers(buckets[h := chains]) == AllMembers(buckets) - Members(buckets[h]) + Members(chains)
  {
    hide Good, Members;
    BucketsApart(buckets, h);
    var after := buckets[h := chains];
    forall t | t in AllMembers(buckets) && t !in Members(buckets[h])
      ensures t in AllMembers(after)
    {
      var i :| 0 <= i < |buckets| && t in Members(buckets[i]);
      assert t in Members(after[i]);
    }
    forall t | t in Members(chains)
      ensures t in AllMembers(after)
    {
      assert t in Members(after[h]);
    }
    forall t | t in AllMembers(after)
      ensures t in AllMembers(buckets) - Members(buckets[h]) + Members(chains)
    {
      var i :| 0 <= i < |after| && t in Members(after[i]);
      if i != h {
        assert t in Members(buckets[i]);
      }
    }
  }

  class SymbolTable {
    const table: array<Sym?>
    ghost var buckets: seq<seq<seq<Sym>>>

    ghost function Symbols(): set<Sym>
      reads this
    {
      AllMembers(buckets)
    }

    /** The links of every bucket are its chains. */
    ghost predicate Connected()
      reads this, table, AllMembers(buckets)
    {
      && table.Length == HASH_SIZE == |buckets|
      && forall h :: 0 <= h < HASH_SIZE ==> Linked(table[h], buckets[h])
    }

    ghost predicate Valid()
      reads this, table, AllMembers(buckets)
    {
      && table.Length == HASH_SIZE == |buckets|
      && forall h :: 0 <= h < HASH_SIZE ==> IsBucket(h, table[h], buckets[h])
    }

    constructor ()
      ensures Valid() && Symbols() == {} && fresh(table)
    {
      table := new Sym?[HASH_SIZE](_ => null);
      buckets := seq(HASH_SIZE, _ => []);
    }

    /**
     The symbol is in the table whatever it is; the table is as it should be, one chain per
     key, just when the symbol was not shadowed.
     */
    method Insert(s: Sym)
      requires Valid() && s !in Symbols() && s.collision == null && s.homonym == null
      requires Hashable(s.str)
      modifies this, table, Symbols(), s
      ensures Connected() && Symbols() == old(Symbols()) + {s}
      ensures var h := Hash(s.str);
              && buckets == old(buckets)[h := Inserted(old(buckets)[h], s)]
              && (Valid() <==> !Shadowed(old(buckets)[h], s))
      ensures s.dbb != NO_DATABASE || (forall t :: t in old(Symbols()) && t.str == s.str ==> t.dbb == NO_DATABASE)
              ==> Valid()
    {
      hide Hashable, Hash, Members, AllMembers, Good, Inserted, Shadowed;
      var h := ComputeHash(s.str);
      HashIsBucket(s.str);
      BucketsApart(buckets, h);
      InsertedIsGood(h, buckets[h], s);
      BucketReplaced(buckets, h, Inserted(buckets[h], s));
      if s.dbb != NO_DATABASE || forall t :: t in Symbols() && t.str == s.str ==> t.dbb == NO_DATABASE {
        OthersUnnamed(buckets[h], s);
      }
      var first := InsertInBucket(table[h], s, h, buckets[h]);
      table[h] := first;
      buckets := buckets[h := Inserted(buckets[h], s)];
      forall i | 0 <= i < HASH_SIZE
        ensures Linked(table[i], buckets[i]) && (i != h ==> IsBucket(i, table[i], buckets[i]))
      {
        if i != h {
          assert buckets[i] == old(buckets[i]) && table[i] == old(table[i]);
          forall k: nat, j: nat | k < |buckets[i]| && j < |buckets[i][k]|
            ensures buckets[i][k][j] in Members(buckets[i])
          {
            InMembers(buckets[i], k, j);
          }
        }
      }
      assert Valid() ==> IsBucket(h, table[h], buckets[h]);
    }

    method Remove(s: Sym) returns (found: bool)
      requires Valid() && Hashable(s.str)
      modifies this, table, Symbols()
      ensures Valid() && Symbols() == old(Symbols()) - {s} && (found <==> s in old(Symbols()))
      ensures var h := Hash(s.str);
              buckets == old(buckets)[h := Removed(old(buckets)[h], s)]
    {
      hide Hashable, Hash, Members, AllMembers, Good, Removed;
      var h := ComputeHash(s.str);
      HashIsBucket(s.str);
      BucketsApart(buckets, h);
      RemovedOrNot(h, buckets[h], s);
      BucketReplaced(buckets, h, Removed(buckets[h], s));
      var first;
      first, found := RemoveFromBucket(table[h], s, h, buckets[h]);
      table[h] := first;
      buckets := buckets[h := Removed(buckets[h], s)];
      forall i | 0 <= i < HASH_SIZE
        ensures IsBucket(i, table[i], buckets[i])
      {
        if i != h {
          assert buckets[i] == old(buckets[i]) && table[i] == old(table[i]);
          forall k: nat, j: nat | k < |buckets[i]| && j < |buckets[i][k]|
            ensures buckets[i][k][j] in Members(buckets[i])
          {
            InMembers(buckets[i], k, j);
          }
        }
      }
    }

    method Lookup(dbb: nat, str: seq<schar>, kind: nat, parserVersion: nat) returns (symbol: Sym?)
      requires Valid() && Hashable(str)
      ensures IsAnswer(symbol, Candidates(Symbols(), dbb, str, kind), kind, parserVersion)
    {
      var h := ComputeHash(str);
      symbol := LookupInBucket(table[h], dbb, str, kind, parserVersion, h, buckets[h]);
      LookupIsInTheCollection(h, buckets[h], Symbols(), dbb, str, kind, parserVersion);
    }

    method FinishAt(h: nat, dbb: nat)
      requires Valid() && h < HASH_SIZE
      modifies this, table, Symbols()
      ensures Valid() && Symbols() <= old(Symbols())
      ensures buckets == old(buckets)[h := Kept(old(buckets)[h], dbb)]
    {
      hide Hashable, Hash, Members, AllMembers, Good, Kept;
      BucketsApart(buckets, h);
      KeptIsGood(h, buckets[h], dbb);
      BucketReplaced(buckets, h, Kept(buckets[h], dbb));
      var first := FinishBucket(table[h], dbb, h, buckets[h]);
      table[h] := first;
      buckets := buckets[h := Kept(buckets[h], dbb)];
      forall i | 0 <= i < HASH_SIZE
        ensures IsBucket(i, table[i], buckets[i])
      {
        if i != h {
          assert buckets[i] == old(buckets[i]) && table[i] == old(table[i]);
          forall k: nat, j: nat | k < |buckets[i]| && j < |buckets[i][k]|
            ensures buckets[i][k][j] in Members(buckets[i])
          {
            InMembers(buckets[i], k, j);
          }
        }
      }
    }

    method Finish(dbb: nat)
      requires Valid()
      modifies this, table, Symbols()
      ensures Valid() && Symbols() == set t | t in old(Symbols()) && t.dbb != dbb
      ensures forall h :: 0 <= h < HASH_SIZE ==> buckets[h] == Kept(old(buckets)[h], dbb)
    {
      hide Hashable, Hash, Members, AllMembers, Kept, Keyed, NoRepeats, Linked;
      ghost var before := buckets;
      assert AllGood(before) && forall i :: 0 <= i < HASH_SIZE ==> NonEmpty(before[i]);
      hide *;
      var h := 0;
      while h < HASH_SIZE
        invariant h <= HASH_SIZE && Valid() && Symbols() <= old(Symbols())
        invariant forall i :: 0 <= i < h ==> buckets[i] == Kept(old(buckets)[i], dbb)
        invariant forall i :: h <= i < HASH_SIZE ==> buckets[i] == old(buckets)[i]
      {
        FinishAt(h, dbb);
        h := h + 1;
      }
      FinishedMembers(before, buckets, dbb);
    }
  }
}
