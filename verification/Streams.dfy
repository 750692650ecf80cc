/** A stream cut into pieces: its concatenation, and what adding to a piece adds. */
module Streams {
  import opened Bytes

  function Flatten(xs: seq<seq<byte>>): seq<byte> {
    if xs == [] then [] else Flatten(xs[..|xs| - 1]) + xs[|xs| - 1]
  }

  lemma {:induction false} FlattenConcat(xs: seq<seq<byte>>, ys: seq<seq<byte>>)
    ensures Flatten(xs + ys) == Flatten(xs) + Flatten(ys)
    decreases |ys|
  {
    if ys == [] {
      assert xs + ys == xs;
    } else {
      var n := |ys| - 1;
      assert (xs + ys)[..|xs + ys| - 1] == xs + ys[..n];
      FlattenConcat(xs, ys[..n]);
    }
  }

  lemma {:induction false} FlattenEmpty(xs: seq<seq<byte>>)
    requires forall i :: 0 <= i < |xs| ==> xs[i] == []
    ensures Flatten(xs) == []
    decreases |xs|
  {
    if xs != [] {
      FlattenEmpty(xs[..|xs| - 1]);
    }
  }

  lemma FlattenOne(x: seq<byte>)
    ensures Flatten([x]) == x
  {
    assert [x][..0] == [];
  }

  /** What is added to the last file in use is added to the stream. */
  lemma FlattenGrows(xs: seq<seq<byte>>, i: nat, s: seq<byte>)
    requires i < |xs| && forall j :: i < j < |xs| ==> xs[j] == []
    ensures Flatten(xs[i := xs[i] + s]) == Flatten(xs) + s
  {
    var ys := xs[i := xs[i] + s];
    var tail := xs[i + 1..];
    FlattenEmpty(tail);
    assert xs == xs[..i] + [xs[i]] + tail && ys == xs[..i] + [xs[i] + s] + tail;
    FlattenConcat(xs[..i] + [xs[i]], tail);
    FlattenConcat(xs[..i] + [xs[i] + s], tail);
    FlattenConcat(xs[..i], [xs[i]]);
    FlattenConcat(xs[..i], [xs[i] + s]);
    FlattenOne(xs[i]);
    FlattenOne(xs[i] + s);
  }

  lemma FlattenFirst(xs: seq<seq<byte>>)
    requires xs != []
    ensures Flatten(xs) == xs[0] + Flatten(xs[1..])
  {
    assert xs == [xs[0]] + xs[1..];
    FlattenConcat([xs[0]], xs[1..]);
    FlattenOne(xs[0]);
  }

  lemma SamePieces(p: seq<seq<byte>>, q: seq<seq<byte>>)
    requires |p| == |q| && forall i :: 0 <= i < |p| ==> p[i] == q[i]
    ensures p == q
  {
  }

  lemma TakeDrop(stream: seq<byte>, s: seq<byte>, n: nat)
    requires n <= |s|
    ensures stream + s[..n] + s[n..] == stream + s
  {
    assert s == s[..n] + s[n..];
  }

  lemma Assoc(a: seq<byte>, b: seq<byte>, c: seq<byte>)
    ensures a + (b + c) == a + b + c
  {
  }

  lemma EmptyPlus(s: seq<byte>)
    ensures [] + s == s && s + [] == s
  {
  }
}
