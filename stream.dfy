/**
 The training-example stream as values: which tokens survive the frequency
 filter, and the three parallel columns (document IDs, token IDs, labels)
 that the example loop appends for the surviving tokens.

 For each surviving token the loop appends one group of `k + 1` entries
 (`k` is the negative-sampling rate): the document's index `k + 1` times;
 the token's ID followed by `k` drawn negative IDs; the label 1 followed by
 `k` zeros. The group for token number `g` of a block therefore starts at
 position `g * (k + 1)`.
 */
module Stream {

  import opened Counting

  // ----- frequency filter -----

  /** The tokens of a document whose count in `freq` exceeds `minCount`, in order. */
  function Survivors(tokens: seq<string>, freq: map<string, nat>, minCount: int): (r: seq<string>)
    ensures |r| <= |tokens|
    ensures forall i :: 0 <= i < |r| ==> CountOf(freq, r[i]) > minCount
  {
    if tokens == [] then []
    else
      var t := tokens[|tokens| - 1];
      Survivors(tokens[..|tokens| - 1], freq, minCount)
        + (if CountOf(freq, t) > minCount then [t] else [])
  }

  /** Token `i` passes the filter: it is appended to the survivors of the tokens before it. */
  lemma SurvivorsKeep(tokens: seq<string>, i: nat, freq: map<string, nat>, minCount: int)
    requires i < |tokens| && CountOf(freq, tokens[i]) > minCount
    ensures Survivors(tokens[..i + 1], freq, minCount) == Survivors(tokens[..i], freq, minCount) + [tokens[i]]
  {
    assert tokens[..i + 1][..i] == tokens[..i];
  }

  /** Token `i` fails the filter: the survivors stay as they were. */
  lemma SurvivorsDrop(tokens: seq<string>, i: nat, freq: map<string, nat>, minCount: int)
    requires i < |tokens| && CountOf(freq, tokens[i]) <= minCount
    ensures Survivors(tokens[..i + 1], freq, minCount) == Survivors(tokens[..i], freq, minCount)
  {
    assert tokens[..i + 1][..i] == tokens[..i];
  }

  /** The filter keeps exactly the tokens of the document that are frequent enough. */
  lemma {:induction false} SurvivorsMembers(tokens: seq<string>, freq: map<string, nat>, minCount: int)
    ensures |Survivors(tokens, freq, minCount)| <= |tokens|
    ensures forall t :: t in Survivors(tokens, freq, minCount)
                    <==> t in tokens && CountOf(freq, t) > minCount
  {
    if tokens != [] {
      var p := tokens[..|tokens| - 1];
      SurvivorsMembers(p, freq, minCount);
      assert tokens == p + [tokens[|tokens| - 1]];
    }
  }

  /** A single token survives exactly when it passes the filter. */
  lemma SurvivorsSingle(t: string, freq: map<string, nat>, minCount: int)
    ensures Survivors([t], freq, minCount) == if CountOf(freq, t) > minCount then [t] else []
  {
  }

  /** Filtering two runs of tokens one after the other is filtering their concatenation. */
  lemma {:induction false} SurvivorsAppend(p: seq<string>, q: seq<string>, freq: map<string, nat>, minCount: int)
    ensures Survivors(p + q, freq, minCount) == Survivors(p, freq, minCount) + Survivors(q, freq, minCount)
    decreases |q|
  {
    if q == [] {
      assert p + q == p;
    } else {
      var n := |q| - 1;
      var pq := p + q;
      SurvivorsAppend(p, q[..n], freq, minCount);
      assert pq[..|pq| - 1] == p + q[..n];
      assert pq[|pq| - 1] == q[n];
      var sp, sq := Survivors(p, freq, minCount), Survivors(q[..n], freq, minCount);
      var last := if CountOf(freq, q[n]) > minCount then [q[n]] else [];
      assert Survivors(pq, freq, minCount) == sp + sq + last;
      assert Survivors(q, freq, minCount) == sq + last;
      AppendAssoc(sp, sq, last);
    }
  }

  /** Every occurrence of a passing token is kept and every occurrence of a failing one dropped. */
  lemma {:induction false} SurvivorsOcc(tokens: seq<string>, freq: map<string, nat>, minCount: int, t: string)
    ensures OccIn(Survivors(tokens, freq, minCount), t) == if CountOf(freq, t) > minCount then OccIn(tokens, t) else 0
  {
    if tokens != [] {
      var p, x := tokens[..|tokens| - 1], tokens[|tokens| - 1];
      SurvivorsOcc(p, freq, minCount, t);
      assert OccIn(tokens, t) == OccIn(p, t) + (if x == t then 1 else 0);
      if CountOf(freq, x) > minCount {
        assert Survivors(tokens, freq, minCount) == Survivors(p, freq, minCount) + [x];
        OccInSnoc(Survivors(p, freq, minCount), x, t);
      } else {
        assert Survivors(tokens, freq, minCount) == Survivors(p, freq, minCount) + [];
        assert Survivors(p, freq, minCount) + [] == Survivors(p, freq, minCount);
      }
    }
  }

  /** All surviving tokens of the corpus, document after document. */
  function Scan(docs: seq<seq<string>>, freq: map<string, nat>, minCount: int): (r: seq<string>)
    ensures forall i :: 0 <= i < |r| ==> CountOf(freq, r[i]) > minCount
  {
    if docs == [] then []
    else Scan(docs[..|docs| - 1], freq, minCount) + Survivors(docs[|docs| - 1], freq, minCount)
  }

  /** The scan holds exactly the corpus tokens that pass the filter. */
  lemma {:induction false} ScanMembers(docs: seq<seq<string>>, freq: map<string, nat>, minCount: int)
    ensures forall t :: t in Scan(docs, freq, minCount)
                    <==> t in CorpusTokens(docs) && CountOf(freq, t) > minCount
  {
    if docs != [] {
      ScanMembers(docs[..|docs| - 1], freq, minCount);
      SurvivorsMembers(docs[|docs| - 1], freq, minCount);
    }
  }

  /** Scanning two corpora one after the other is scanning their concatenation. */
  lemma {:induction false} ScanAppend(a: seq<seq<string>>, b: seq<seq<string>>, freq: map<string, nat>, minCount: int)
    ensures Scan(a + b, freq, minCount) == Scan(a, freq, minCount) + Scan(b, freq, minCount)
    decreases |b|
  {
    if b == [] {
      assert a + b == a;
    } else {
      var n := |b| - 1;
      var ab := a + b;
      ScanAppend(a, b[..n], freq, minCount);
      assert ab[..|ab| - 1] == a + b[..n];
      assert ab[|ab| - 1] == b[n];
      var sa, sb, sv := Scan(a, freq, minCount), Scan(b[..n], freq, minCount), Survivors(b[n], freq, minCount);
      assert Scan(ab, freq, minCount) == sa + sb + sv;
      assert Scan(b, freq, minCount) == sb + sv;
      AppendAssoc(sa, sb, sv);
    }
  }

  /**
   One more document: its survivors extend the scan, its block extends the
   document column, and a survivor of it makes the whole scan non-empty.
   */
  lemma ScanStep(docs: seq<seq<string>>, d: nat, freq: map<string, nat>, minCount: int, k: nat)
    requires d < |docs|
    ensures Scan(docs[..d + 1], freq, minCount) == Scan(docs[..d], freq, minCount) + Survivors(docs[d], freq, minCount)
    ensures DocColumn(docs[..d + 1], freq, minCount, k)
         == DocColumn(docs[..d], freq, minCount, k) + DocBlock(d, |Survivors(docs[d], freq, minCount)|, k)
    ensures |Scan(docs[..d + 1], freq, minCount)| <= |Scan(docs, freq, minCount)|
  {
    assert docs[..d + 1][..d] == docs[..d] && docs[..d + 1][d] == docs[d];
    ScanAppend(docs[..d + 1], docs[d + 1..], freq, minCount);
    assert docs[..d + 1] + docs[d + 1..] == docs;
  }

  // ----- label column -----

  /** `k` zero labels. */
  function Zeros(k: nat): seq<int>
  {
    if k == 0 then [] else Zeros(k - 1) + [0]
  }

  lemma {:induction false} ZerosShape(k: nat)
    ensures |Zeros(k)| == k
    ensures forall p :: 0 <= p < k ==> Zeros(k)[p] == 0
  {
    if k > 0 {
      ZerosShape(k - 1);
    }
  }

  lemma {:induction false} ZerosCount(k: nat)
    ensures |Zeros(k)| == k
    ensures multiset(Zeros(k))[0] == k && multiset(Zeros(k))[1] == 0
  {
    if k > 0 {
      ZerosCount(k - 1);
    }
  }

  /** The labels appended for `m` surviving tokens: `m` groups `[1, 0, ..., 0]`. */
  function Labels(m: nat, k: nat): seq<int>
  {
    if m == 0 then [] else Labels(m - 1, k) + [1] + Zeros(k)
  }

  /** `m` groups of `k + 1` labels; the first label of every group is 1, the others 0. */
  lemma {:induction false} LabelsShape(m: nat, k: nat, g: nat, j: nat)
    requires g < m && j <= k
    ensures |Labels(m, k)| == m * (k + 1)
    ensures g * (k + 1) + j < m * (k + 1)
    ensures Labels(m, k)[g * (k + 1) + j] == if j == 0 then 1 else 0
  {
    ZerosShape(k);
    LabelsLength(m - 1, k);
    if g < m - 1 {
      LabelsShape(m - 1, k, g, j);
    } else {
      assert g * (k + 1) == (m - 1) * (k + 1);
    }
  }

  lemma {:induction false} LabelsLength(m: nat, k: nat)
    ensures |Labels(m, k)| == m * (k + 1)
  {
    if m > 0 {
      LabelsLength(m - 1, k);
      ZerosShape(k);
      assert m * (k + 1) == (m - 1) * (k + 1) + (k + 1);
    }
  }

  /** Exactly `m` labels are 1. */
  lemma {:induction false} LabelsOnes(m: nat, k: nat)
    ensures multiset(Labels(m, k))[1] == m
  {
    if m > 0 {
      LabelsOnes(m - 1, k);
      ZerosCount(k);
      GroupCount(Labels(m - 1, k), Zeros(k), 1);
    }
  }

  /** Every label that is not one of the `m` ones is 0. */
  lemma {:induction false} LabelsZeros(m: nat, k: nat)
    ensures multiset(Labels(m, k))[0] + m == |Labels(m, k)|
  {
    if m == 0 {
      assert Labels(m, k) == [];
    } else {
      var pre, z, l := Labels(m - 1, k), Zeros(k), Labels(m, k);
      assert l == pre + [1] + z;
      LabelsZeros(m - 1, k);
      ZerosCount(k);
      ZeroStep(pre, z, l, m);
    }
  }

  /** `outputs` for `m` tokens: `m * (k + 1)` labels, of which `m` are 1 and `m * k` are 0. */
  lemma LabelsCount(m: nat, k: nat)
    ensures |Labels(m, k)| == m * (k + 1)
    ensures multiset(Labels(m, k))[1] == m
    ensures multiset(Labels(m, k))[0] == m * k
  {
    LabelsLength(m, k);
    LabelsOnes(m, k);
    LabelsZeros(m, k);
    assert m * (k + 1) == m * k + m;
  }

  /** The labels of two blocks placed one after the other are the labels of their tokens together. */
  lemma {:induction false} LabelsAppend(a: nat, b: nat, k: nat)
    ensures Labels(a, k) + Labels(b, k) == Labels(a + b, k)
  {
    if b > 0 {
      LabelsAppend(a, b - 1, k);
    }
  }

  // ----- token column -----

  /** Every drawn group holds `k` negatives. */
  ghost predicate Uniform(negs: seq<seq<int>>, k: nat)
  {
    forall g :: 0 <= g < |negs| ==> |negs[g]| == k
  }

  /** Every drawn negative lies in `[1, vocabLen - 1]`. */
  ghost predicate NegativesInRange(negs: seq<seq<int>>, vocabLen: int)
  {
    forall g, j :: 0 <= g < |negs| && 0 <= j < |negs[g]| ==> 1 <= negs[g][j] <= vocabLen - 1
  }

  /** The token IDs appended: each positive ID followed by the negatives drawn for it. */
  function TokenColumn(ids: seq<int>, negs: seq<seq<int>>): seq<int>
    requires |negs| == |ids|
  {
    if ids == [] then []
    else
      var n := |ids| - 1;
      TokenColumn(ids[..n], negs[..n]) + [ids[n]] + negs[n]
  }

  lemma {:induction false} TokenColumnLength(ids: seq<int>, negs: seq<seq<int>>, k: nat)
    requires |negs| == |ids| && Uniform(negs, k)
    ensures |TokenColumn(ids, negs)| == |ids| * (k + 1)
  {
    if ids != [] {
      var n := |ids| - 1;
      TokenColumnLength(ids[..n], negs[..n], k);
      assert |ids| * (k + 1) == n * (k + 1) + (k + 1);
    }
  }

  /**
   Group `g` of the token column starts with the `g`-th positive ID and
   continues with the negatives drawn for it.
   */
  lemma {:induction false} TokenColumnShape(ids: seq<int>, negs: seq<seq<int>>, k: nat, g: nat, j: nat)
    requires |negs| == |ids| && Uniform(negs, k)
    requires g < |ids| && j <= k
    ensures |TokenColumn(ids, negs)| == |ids| * (k + 1)
    ensures g * (k + 1) + j < |ids| * (k + 1)
    ensures TokenColumn(ids, negs)[g * (k + 1) + j] == if j == 0 then ids[g] else negs[g][j - 1]
  {
    var n := |ids| - 1;
    TokenColumnLength(ids, negs, k);
    TokenColumnLength(ids[..n], negs[..n], k);
    if g < n {
      TokenColumnShape(ids[..n], negs[..n], k, g, j);
    } else {
      assert g * (k + 1) == n * (k + 1);
    }
  }

  /** A negative position never holds ID 0 and stays below `vocabLen`. */
  lemma NegativeIdsInRange(ids: seq<int>, negs: seq<seq<int>>, k: nat, vocabLen: int, g: nat, j: nat)
    requires |negs| == |ids| && Uniform(negs, k) && NegativesInRange(negs, vocabLen)
    requires g < |ids| && 1 <= j <= k
    ensures g * (k + 1) + j < |TokenColumn(ids, negs)|
    ensures 1 <= TokenColumn(ids, negs)[g * (k + 1) + j] <= vocabLen - 1
  {
    TokenColumnShape(ids, negs, k, g, j);
  }

  lemma {:induction false} TokenColumnAppend(i1: seq<int>, n1: seq<seq<int>>, i2: seq<int>, n2: seq<seq<int>>)
    requires |n1| == |i1| && |n2| == |i2|
    ensures TokenColumn(i1, n1) + TokenColumn(i2, n2) == TokenColumn(i1 + i2, n1 + n2)
    decreases |i2|
  {
    if i2 != [] {
      var n := |i2| - 1;
      TokenColumnAppend(i1, n1, i2[..n], n2[..n]);
      var ii, nn := i1 + i2, n1 + n2;
      var last := |ii| - 1;
      assert last == |i1| + n;
      assert ii[..last] == i1 + i2[..n] && ii[last] == i2[n];
      assert nn[..last] == n1 + n2[..n] && nn[last] == n2[n];
      assert TokenColumn(ii, nn) == TokenColumn(i1 + i2[..n], n1 + n2[..n]) + [i2[n]] + n2[n];
      assert TokenColumn(i2, n2) == TokenColumn(i2[..n], n2[..n]) + [i2[n]] + n2[n];
      var c1, c2 := TokenColumn(i1, n1), TokenColumn(i2[..n], n2[..n]);
      assert c1 + (c2 + [i2[n]] + n2[n]) == c1 + c2 + [i2[n]] + n2[n];
    } else {
      assert i1 + i2 == i1 && n1 + n2 == n1;
    }
  }

  // ----- document column -----

  /** The document IDs appended for `m` surviving tokens of document `d`. */
  function DocBlock(d: int, m: nat, k: nat): seq<int>
  {
    if m == 0 then [] else DocBlock(d, m - 1, k) + seq(k + 1, _ => d)
  }

  lemma {:induction false} DocBlockShape(d: int, m: nat, k: nat)
    ensures |DocBlock(d, m, k)| == m * (k + 1)
    ensures forall p :: 0 <= p < |DocBlock(d, m, k)| ==> DocBlock(d, m, k)[p] == d
  {
    if m > 0 {
      DocBlockShape(d, m - 1, k);
    }
  }

  /** The document IDs appended for a whole corpus, documents numbered from 0. */
  function DocColumn(docs: seq<seq<string>>, freq: map<string, nat>, minCount: int, k: nat): seq<int>
  {
    if docs == [] then []
    else
      var n := |docs| - 1;
      DocColumn(docs[..n], freq, minCount, k)
        + DocBlock(n, |Survivors(docs[n], freq, minCount)|, k)
  }

  lemma {:induction false} DocColumnLength(docs: seq<seq<string>>, freq: map<string, nat>, minCount: int, k: nat)
    ensures |DocColumn(docs, freq, minCount, k)| == |Scan(docs, freq, minCount)| * (k + 1)
  {
    if docs != [] {
      var n := |docs| - 1;
      var pre, surv := Scan(docs[..n], freq, minCount), Survivors(docs[n], freq, minCount);
      assert |Scan(docs, freq, minCount)| == |pre| + |surv|;
      DocColumnLength(docs[..n], freq, minCount, k);
      DocBlockShape(n, |surv|, k);
      assert |DocColumn(docs, freq, minCount, k)| == |pre| * (k + 1) + |surv| * (k + 1);
      MulAdd(|pre|, |surv|, k + 1);
    }
  }

  /**
   The document column has one group per surviving token, holds only
   indices of the corpus, and never decreases.
   */
  lemma {:induction false} DocColumnShape(docs: seq<seq<string>>, freq: map<string, nat>, minCount: int, k: nat)
    ensures |DocColumn(docs, freq, minCount, k)| == |Scan(docs, freq, minCount)| * (k + 1)
    ensures forall p :: 0 <= p < |DocColumn(docs, freq, minCount, k)|
                    ==> 0 <= DocColumn(docs, freq, minCount, k)[p] < |docs|
    ensures forall p, q :: 0 <= p <= q < |DocColumn(docs, freq, minCount, k)|
                    ==> DocColumn(docs, freq, minCount, k)[p] <= DocColumn(docs, freq, minCount, k)[q]
  {
    DocColumnLength(docs, freq, minCount, k);
    if docs != [] {
      var n := |docs| - 1;
      DocColumnShape(docs[..n], freq, minCount, k);
      var m := |Survivors(docs[n], freq, minCount)|;
      DocBlockShape(n, m, k);
      var pre := DocColumn(docs[..n], freq, minCount, k);
      var blk := DocBlock(n, m, k);
      var c := pre + blk;
      assert c == DocColumn(docs, freq, minCount, k);
      assert forall p :: 0 <= p < |pre| ==> c[p] == pre[p] && 0 <= c[p] < n;
      assert forall p :: |pre| <= p < |c| ==> c[p] == blk[p - |pre|] == n;
    }
  }

  /** Extending the scan by one document's survivors extends the token column by that document's groups. */
  lemma TokenColumnConcat(m: map<string, nat>, s: seq<string>, surv: seq<string>, n1: seq<seq<int>>, n2: seq<seq<int>>)
    requires forall t :: t in s + surv ==> t in m
    requires |n1| == |s| && |n2| == |surv|
    ensures TokenColumn(IdsOf(m, s), n1) + TokenColumn(IdsOf(m, surv), n2) == TokenColumn(IdsOf(m, s + surv), n1 + n2)
  {
    IdsOfAppend(m, s, surv);
    TokenColumnAppend(IdsOf(m, s), n1, IdsOf(m, surv), n2);
  }

  /**
   The token column after one more document: a table that extends the old
   one maps the longer scan, and the new groups appended after the old
   column give the column of the longer scan.
   */
  lemma TokenColumnNext(docs: seq<seq<string>>, d: nat, freq: map<string, nat>, minCount: int,
                        m1: map<string, nat>, m2: map<string, nat>, n1: seq<seq<int>>, n2: seq<seq<int>>,
                        before: seq<int>, after: seq<int>)
    requires d < |docs|
    requires forall t :: t in Scan(docs[..d], freq, minCount) ==> t in m1
    requires forall t :: t in m1 ==> t in m2 && m2[t] == m1[t]
    requires forall t :: t in Survivors(docs[d], freq, minCount) ==> t in m2
    requires |n1| == |Scan(docs[..d], freq, minCount)|
    requires |n2| == |n1| + |Survivors(docs[d], freq, minCount)| && n2[..|n1|] == n1
    requires before == TokenColumn(IdsOf(m1, Scan(docs[..d], freq, minCount)), n1)
    requires after == before + TokenColumn(IdsOf(m2, Survivors(docs[d], freq, minCount)), n2[|n1|..])
    ensures forall t :: t in Scan(docs[..d + 1], freq, minCount) ==> t in m2
    ensures |n2| == |Scan(docs[..d + 1], freq, minCount)|
    ensures after == TokenColumn(IdsOf(m2, Scan(docs[..d + 1], freq, minCount)), n2)
  {
    var s, surv := Scan(docs[..d], freq, minCount), Survivors(docs[d], freq, minCount);
    ScanStep(docs, d, freq, minCount, 0);
    IdsOfAgree(m1, m2, s);
    TokenColumnConcat(m2, s, surv, n1, n2[|n1|..]);
    SplitAt(n2, n1);
  }

  // ----- ID lookup of a token sequence -----

  /** The IDs `m` gives to the tokens of `s`, in order. */
  function IdsOf(m: map<string, nat>, s: seq<string>): (r: seq<nat>)
    requires forall t :: t in s ==> t in m
    ensures |r| == |s| && forall i :: 0 <= i < |s| ==> r[i] == m[s[i]]
  {
    if s == [] then []
    else IdsOf(m, s[..|s| - 1]) + [m[s[|s| - 1]]]
  }

  lemma IdsOfAppend(m: map<string, nat>, a: seq<string>, b: seq<string>)
    requires forall t :: t in a + b ==> t in m
    ensures IdsOf(m, a + b) == IdsOf(m, a) + IdsOf(m, b)
  {
  }

  /**
   Looking up one more token `t` with a table `m2` that extends `m1` and
   gives `t` the ID `id` extends the mapped sequence by `id`.
   */
  lemma IdsOfNext(m1: map<string, nat>, m2: map<string, nat>, s: seq<string>, t: string,
                  ids: seq<nat>, id: nat)
    requires forall u :: u in s ==> u in m1
    requires forall u :: u in m1 ==> u in m2 && m2[u] == m1[u]
    requires t in m2 && m2[t] == id
    requires ids == IdsOf(m1, s)
    ensures forall u :: u in s + [t] ==> u in m2
    ensures ids + [id] == IdsOf(m2, s + [t])
  {
  }

  /** Two tables that agree on every token of `s` map `s` alike. */
  lemma IdsOfAgree(m1: map<string, nat>, m2: map<string, nat>, s: seq<string>)
    requires forall t :: t in s ==> t in m1 && t in m2 && m1[t] == m2[t]
    ensures IdsOf(m1, s) == IdsOf(m2, s)
  {
  }

  // ----- proof steps -----
  //
  // The lemmas below state no property of the example stream. Each one
  // hands the solver a single equation, with its hypotheses spelled out
  // exactly as they appear at the call site, so that the methods of
  // `Prepare` and the longer inductions above stay cheap to verify.

  /** One more token adds one occurrence of itself. */
  lemma OccInSnoc(x: seq<string>, y: string, t: string)
    ensures OccIn(x + [y], t) == OccIn(x, t) + (if y == t then 1 else 0)
  {
    assert (x + [y])[..|x|] == x;
  }

  /** Concatenation is associative. */
  lemma AppendAssoc<T>(a: seq<T>, b: seq<T>, c: seq<T>)
    ensures a + b + c == a + (b + c)
  {
  }

  /** Appending `t` to `base + s` is appending `s + [t]` to `base`. */
  lemma Snoc<T>(base: seq<T>, mid: seq<T>, last: seq<T>, s: seq<T>, s': seq<T>, t: T)
    requires mid == base + s && last == mid + [t] && s' == s + [t]
    ensures last == base + s'
  {
  }

  /** Cutting `p + q` after `p`. */
  lemma CutAfter<T>(s: seq<T>, p: seq<T>, q: seq<T>)
    requires s == p + q
    ensures s[..|p|] == p && s[|p|..] == q
  {
  }

  /** A sequence that starts with `p` is `p` followed by the rest. */
  lemma SplitAt<T>(s: seq<T>, p: seq<T>)
    requires |p| <= |s| && s[..|p|] == p
    ensures p + s[|p|..] == s
  {
  }

  /** `(a + c) * b == a * b + c * b`, spelled out for the solver. */
  lemma MulAdd(a: nat, c: nat, b: nat)
    ensures (a + c) * b == a * b + c * b
  {
  }

  /** How often `v` occurs in one group appended after `a`. */
  lemma GroupCount(a: seq<int>, z: seq<int>, v: int)
    ensures multiset(a + [1] + z)[v] == multiset(a)[v] + (if v == 1 then 1 else 0) + multiset(z)[v]
  {
  }

  /** One more group `[1] + z` with `z` all zeros keeps "all but `m` labels are 0". */
  lemma ZeroStep(pre: seq<int>, z: seq<int>, l: seq<int>, m: nat)
    requires m > 0 && l == pre + [1] + z
    requires multiset(pre)[0] + (m - 1) == |pre| && multiset(z)[0] == |z|
    ensures multiset(l)[0] + m == |l|
  {
  }

  /** Appending one more group to a list that ends in `Labels(m, k)`. */
  lemma LabelsStep(base: seq<int>, mid: seq<int>, last: seq<int>, m: nat, k: nat)
    requires mid == base + Labels(m, k) && last == mid + [1] + Zeros(k)
    ensures last == base + Labels(m + 1, k)
  {
  }

  /** Labels for `a` tokens followed by labels for `b` more tokens are the labels for `n == a + b` tokens. */
  lemma LabelsNext(mid: seq<int>, last: seq<int>, a: nat, b: nat, n: nat, k: nat)
    requires mid == Labels(a, k) && last == mid + Labels(b, k) && n == a + b
    ensures last == Labels(n, k)
  {
    LabelsAppend(a, b, k);
  }

  /** A new group of `k` negatives in range keeps every group uniform and in range. */
  lemma NegativesSnoc(negs: seq<seq<int>>, group: seq<int>, k: nat, vocabLen: int)
    requires Uniform(negs, k) && NegativesInRange(negs, vocabLen)
    requires |group| == k && forall j :: 0 <= j < k ==> 1 <= group[j] <= vocabLen - 1
    ensures Uniform(negs + [group], k) && NegativesInRange(negs + [group], vocabLen)
  {
  }

  /** Appending one positive with its negatives to a list that ends in a token column. */
  lemma TokenColumnStep(base: seq<int>, mid: seq<int>, last: seq<int>, ids: seq<int>, i: nat,
                        negs: seq<seq<int>>, drawn: seq<int>)
    requires i < |ids| && |negs| == i
    requires mid == base + TokenColumn(ids[..i], negs) && last == mid + [ids[i]] + drawn
    ensures last == base + TokenColumn(ids[..i + 1], negs + [drawn])
  {
    assert ids[..i + 1][..i] == ids[..i];
    assert (negs + [drawn])[..|negs|] == negs;
    assert TokenColumn(ids[..i + 1], negs + [drawn]) == TokenColumn(ids[..i], negs) + [ids[i]] + drawn;
  }

  /** Appending one more group of document IDs to a list that ends in `DocBlock(d, m, k)`. */
  lemma DocBlockStep(base: seq<int>, mid: seq<int>, last: seq<int>, d: int, m: nat, k: nat)
    requires mid == base + DocBlock(d, m, k) && last == mid + seq(k + 1, _ => d)
    ensures last == base + DocBlock(d, m + 1, k)
  {
  }

}
