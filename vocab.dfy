/**
 Dense vocabulary IDs. `token2idx` is a `defaultdict` whose default factory
 returns the dictionary's own current length, so looking a token up either
 returns its ID or, on the first lookup, stores and returns the next dense
 ID. `Ids(s)` is the dictionary after looking up the tokens of `s` in order.
 */
module Vocab {

  /** The token-to-ID table after looking up every token of `s`, left to right. */
  function Ids(s: seq<string>): (r: map<string, nat>)
    ensures |r| <= |s|
  {
    if s == [] then map[]
    else
      var m := Ids(s[..|s| - 1]);
      var t := s[|s| - 1];
      if t in m then m else m[t := |m|]
  }

  /** No two tokens share an ID. */
  ghost predicate Injective(m: map<string, nat>)
  {
    forall u, v :: u in m && v in m && u != v ==> m[u] != m[v]
  }

  /** The IDs in use are exactly 0, 1, ..., |m| - 1. */
  ghost predicate Dense(m: map<string, nat>)
  {
    forall i: nat :: i in m.Values <==> i < |m|
  }

  /** Exactly the tokens looked up get an ID. */
  lemma {:induction false} IdsKeys(s: seq<string>)
    ensures forall t :: t in Ids(s) <==> t in s
  {
    if s != [] {
      var p := s[..|s| - 1];
      IdsKeys(p);
      assert s == p + [s[|s| - 1]];
    }
  }

  /** After any sequence of lookups the IDs are dense and distinct. */
  lemma {:induction false} IdsDenseInjective(s: seq<string>)
    ensures Dense(Ids(s)) && Injective(Ids(s))
  {
    if s != [] {
      var p := s[..|s| - 1];
      var t := s[|s| - 1];
      IdsDenseInjective(p);
      var m := Ids(p);
      if t !in m {
        var m' := m[t := |m|];
        assert |m'| == |m| + 1;
        forall i: nat ensures i in m'.Values <==> i < |m'| {
          if i < |m| {
            assert i in m.Values;
            var u :| u in m && m[u] == i;
            assert m'[u] == i;
          } else if i == |m| {
            assert m'[t] == i;
          }
          if i in m'.Values {
            var u :| u in m' && m'[u] == i;
            if u != t {
              assert m[u] in m.Values;
            }
          }
        }
        forall u, v | u in m' && v in m' && u != v ensures m'[u] != m'[v] {
          if u != t { assert m[u] in m.Values; }
          if v != t { assert m[v] in m.Values; }
        }
      }
    }
  }

  /** Later lookups never change an ID already assigned. */
  lemma {:induction false} IdsStable(p: seq<string>, q: seq<string>)
    ensures forall t :: t in Ids(p) ==> t in Ids(p + q) && Ids(p + q)[t] == Ids(p)[t]
  {
    if q == [] {
      assert p + q == p;
    } else {
      var q' := q[..|q| - 1];
      IdsStable(p, q');
      assert (p + q)[..|p + q| - 1] == p + q';
    }
  }

  /** One lookup adds at most one entry. */
  lemma IdsStep(p: seq<string>, t: string)
    ensures |Ids(p)| <= |Ids(p + [t])| <= |Ids(p)| + 1
  {
  }

  /** The table grows by at most one entry per lookup and never shrinks. */
  lemma {:induction false} IdsGrow(s: seq<string>, a: nat, b: nat)
    requires a <= b <= |s|
    ensures |Ids(s[..a])| <= |Ids(s[..b])| <= |Ids(s[..a])| + (b - a)
    decreases b
  {
    if a < b {
      IdsGrow(s, a, b - 1);
      IdsStep(s[..b - 1], s[b - 1]);
      assert s[..b - 1] + [s[b - 1]] == s[..b];
    }
  }

  /**
   A token first met at position `i` gets as ID the number of distinct
   tokens met before it.
   */
  lemma {:induction false} IdAtFirstOccurrence(s: seq<string>, i: nat)
    requires i < |s| && s[i] !in s[..i]
    ensures s[i] in Ids(s) && Ids(s)[s[i]] == |Ids(s[..i])|
    ensures Ids(s)[s[i]] == |set t | t in s[..i]|
  {
    var p, q := s[..i], s[..i + 1];
    IdsKeys(p);
    assert Ids(p).Keys == set t | t in p;
    assert q[..|q| - 1] == p && q[|q| - 1] == s[i];
    assert Ids(q) == Ids(p)[s[i] := |Ids(p)|];
    assert q + s[i + 1..] == s;
    IdsStable(q, s[i + 1..]);
  }

  /** A token first met earlier in the scan gets a smaller ID. */
  lemma {:induction false} FirstOccurrenceOrder(s: seq<string>, i: nat, j: nat)
    requires i < j < |s|
    requires s[i] !in s[..i] && s[j] !in s[..j]
    ensures s[i] in Ids(s) && s[j] in Ids(s)
    ensures Ids(s)[s[i]] < Ids(s)[s[j]]
  {
    IdAtFirstOccurrence(s, i);
    IdAtFirstOccurrence(s, j);
    IdsGrow(s, i + 1, j);
    IdsKeys(s[..i]);
    assert s[..i + 1][..i] == s[..i];
  }

  /** `idx2token`: the table read backwards. */
  function Invert(m: map<string, nat>): (inv: map<nat, string>)
    requires Injective(m)
    ensures inv.Keys == m.Values
    ensures forall t :: t in m ==> inv[m[t]] == t
    ensures forall i :: i in inv ==> inv[i] in m && m[inv[i]] == i
  {
    map t | t in m :: m[t] := t
  }

  /**
   The inverse of a lookup table holds exactly the IDs 0 .. n-1, where n is
   the number of distinct tokens looked up, and undoes the table both ways.
   */
  lemma {:induction false} IdsInverse(s: seq<string>)
    ensures Injective(Ids(s))
    ensures forall t :: t in Ids(s) <==> t in s
    ensures forall i: nat :: i in Invert(Ids(s)) <==> i < |Ids(s)|
    ensures forall t :: t in s ==> Invert(Ids(s))[Ids(s)[t]] == t
    ensures forall i :: i in Invert(Ids(s)) ==> Ids(s)[Invert(Ids(s))[i]] == i
  {
    IdsDenseInjective(s);
    IdsKeys(s);
  }

}
