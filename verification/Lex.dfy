/** Lexicographic order on number sequences of the same length. */
module Lex {

  ghost predicate LexBelow(t: seq<nat>, u: seq<nat>)
    requires |t| == |u|
  {
    exists k :: 0 <= k < |t| && t[..k] == u[..k] && t[k] < u[k]
  }

  lemma LexUnfold(t: seq<nat>, u: seq<nat>)
    requires |t| == |u| && 0 < |t|
    ensures LexBelow(t, u) <==> t[0] < u[0] || (t[0] == u[0] && LexBelow(t[1..], u[1..]))
  {
    if LexBelow(t, u) {
      var k :| 0 <= k < |t| && t[..k] == u[..k] && t[k] < u[k];
      if k > 0 {
        assert t[0] == t[..k][0] && u[0] == u[..k][0];
        assert t[1..][..k - 1] == t[..k][1..] && u[1..][..k - 1] == u[..k][1..];
        assert t[1..][k - 1] < u[1..][k - 1];
      }
    }
    if t[0] < u[0] {
      assert t[..0] == u[..0];
    } else if t[0] == u[0] && LexBelow(t[1..], u[1..]) {
      var k :| 0 <= k < |t[1..]| && t[1..][..k] == u[1..][..k] && t[1..][k] < u[1..][k];
      assert t[..k + 1] == [t[0]] + t[1..][..k];
      assert u[..k + 1] == [u[0]] + u[1..][..k];
      assert t[k + 1] < u[k + 1];
    }
  }

  /** Exactly one of below, equal, above. */
  lemma {:induction false} LexTrichotomy(t: seq<nat>, u: seq<nat>)
    requires |t| == |u|
    ensures t == u <==> !LexBelow(t, u) && !LexBelow(u, t)
    ensures !(LexBelow(t, u) && LexBelow(u, t))
  {
    if t != [] {
      LexUnfold(t, u);
      LexUnfold(u, t);
      LexTrichotomy(t[1..], u[1..]);
      assert t == [t[0]] + t[1..] && u == [u[0]] + u[1..];
    }
  }

  lemma {:induction false} LexTransitive(t: seq<nat>, u: seq<nat>, v: seq<nat>)
    requires |t| == |u| == |v|
    ensures LexBelow(t, u) && LexBelow(u, v) ==> LexBelow(t, v)
  {
    if t != [] {
      LexUnfold(t, u);
      LexUnfold(u, v);
      LexUnfold(t, v);
      LexTransitive(t[1..], u[1..], v[1..]);
    }
  }

  lemma NotBelowTransitive(t: seq<nat>, u: seq<nat>, v: seq<nat>)
    requires |t| == |u| == |v|
    requires !LexBelow(u, t) && !LexBelow(v, u)
    ensures !LexBelow(v, t)
  {
    LexTrichotomy(t, u);
    LexTransitive(v, t, u);
  }
}
