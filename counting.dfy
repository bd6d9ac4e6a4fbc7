/**
 Token counting over a tokenized corpus (the document-reading loop of
 `read_data`) and the filtered vocabulary size derived from the counts.

 A corpus is a sequence of documents, each an already tokenized
 (stripped, lower-cased, whitespace-split) sequence of tokens.
 */
module Counting {

  /** Number of occurrences of `t` in one document. */
  function OccIn(doc: seq<string>, t: string): nat
  {
    if doc == [] then 0
    else OccIn(doc[..|doc| - 1], t) + (if doc[|doc| - 1] == t then 1 else 0)
  }

  /** Number of occurrences of `t` across all documents. */
  function Occ(docs: seq<seq<string>>, t: string): nat
  {
    if docs == [] then 0
    else Occ(docs[..|docs| - 1], t) + OccIn(docs[|docs| - 1], t)
  }

  /** Number of token occurrences in the corpus. */
  function TotalTokens(docs: seq<seq<string>>): nat
  {
    if docs == [] then 0
    else TotalTokens(docs[..|docs| - 1]) + |docs[|docs| - 1]|
  }

  /** The distinct tokens of the corpus. */
  function CorpusTokens(docs: seq<seq<string>>): set<string>
  {
    if docs == [] then {}
    else CorpusTokens(docs[..|docs| - 1]) + DocTokens(docs[|docs| - 1])
  }

  /** The distinct tokens of one document. */
  function DocTokens(doc: seq<string>): (r: set<string>)
    ensures forall t :: t in r <==> t in doc
  {
    set i | 0 <= i < |doc| :: doc[i]
  }

  /** Reading a count table as a `defaultdict(lambda: 0)` is read: a missing token counts 0. */
  function CountOf(cntr: map<string, nat>, t: string): nat
  {
    if t in cntr then cntr[t] else 0
  }

  /** `cntr[t] += 1` on a `defaultdict(lambda: 0)` adds one to `t`'s count and leaves every other count alone. */
  lemma CountOfIncrement(cntr: map<string, nat>, t: string, u: string)
    ensures CountOf(cntr[t := CountOf(cntr, t) + 1], u) == CountOf(cntr, u) + (if u == t then 1 else 0)
  {
  }

  /** A token occurs in a document exactly when its count there is positive. */
  lemma {:induction false} OccInPositive(doc: seq<string>, t: string)
    ensures OccIn(doc, t) > 0 <==> t in doc
  {
    if doc != [] {
      var p := doc[..|doc| - 1];
      OccInPositive(p, t);
      assert doc == p + [doc[|doc| - 1]];
    }
  }

  /** A token has a positive corpus count exactly when it is one of the corpus tokens. */
  lemma {:induction false} OccPositive(docs: seq<seq<string>>, t: string)
    ensures Occ(docs, t) > 0 <==> t in CorpusTokens(docs)
  {
    if docs != [] {
      OccPositive(docs[..|docs| - 1], t);
      OccInPositive(docs[|docs| - 1], t);
    }
  }

  // ----- sums over a count table -----

  ghost function Pick(keys: set<string>): string
    requires keys != {}
  {
    var t :| t in keys; t
  }

  /** Sum of the counts stored under `keys`. */
  ghost function SumOver(cntr: map<string, nat>, keys: set<string>): nat
    requires keys <= cntr.Keys
    decreases keys
  {
    if keys == {} then 0
    else var t := Pick(keys); cntr[t] + SumOver(cntr, keys - {t})
  }

  /** Sum of all counts of a table. */
  ghost function SumCounts(cntr: map<string, nat>): nat
  {
    SumOver(cntr, cntr.Keys)
  }

  /** The sum may be split at any key, not only the one `Pick` chooses. */
  lemma {:induction false} SumOverAt(cntr: map<string, nat>, keys: set<string>, k: string)
    requires keys <= cntr.Keys && k in keys
    ensures SumOver(cntr, keys) == cntr[k] + SumOver(cntr, keys - {k})
    decreases keys
  {
    var t := Pick(keys);
    if t != k {
      SumOverAt(cntr, keys - {t}, k);
      SumOverAt(cntr, keys - {k}, t);
      assert keys - {t} - {k} == keys - {k} - {t};
    }
  }

  /** Two tables that agree on `keys` have the same sum over `keys`. */
  lemma {:induction false} SumOverAgree(c1: map<string, nat>, c2: map<string, nat>, keys: set<string>)
    requires keys <= c1.Keys && keys <= c2.Keys
    requires forall k :: k in keys ==> c1[k] == c2[k]
    ensures SumOver(c1, keys) == SumOver(c2, keys)
    decreases keys
  {
    if keys != {} {
      SumOverAgree(c1, c2, keys - {Pick(keys)});
    }
  }

  /** Incrementing one token's count (`cntr[token] += 1`) adds one to the sum. */
  lemma {:induction false} SumCountsIncrement(cntr: map<string, nat>, t: string)
    ensures SumCounts(cntr[t := CountOf(cntr, t) + 1]) == SumCounts(cntr) + 1
  {
    var c := cntr[t := CountOf(cntr, t) + 1];
    if t in cntr {
      assert c.Keys == cntr.Keys;
      SumOverAt(c, c.Keys, t);
      SumOverAt(cntr, cntr.Keys, t);
      SumOverAgree(c, cntr, cntr.Keys - {t});
    } else {
      assert c.Keys - {t} == cntr.Keys;
      SumOverAt(c, c.Keys, t);
      SumOverAgree(c, cntr, cntr.Keys);
    }
  }

  /** The inner loop of `read_data`: every token of `doc` increments its counter. */
  method CountDocument(cntr0: map<string, nat>, doc: seq<string>) returns (cntr: map<string, nat>)
    ensures forall t :: CountOf(cntr, t) == CountOf(cntr0, t) + OccIn(doc, t)
    ensures forall t :: t in cntr <==> t in cntr0 || t in doc
    ensures SumCounts(cntr) == SumCounts(cntr0) + |doc|
  {
    cntr := cntr0;
    for j := 0 to |doc|
      invariant forall t :: CountOf(cntr, t) == CountOf(cntr0, t) + OccIn(doc[..j], t)
      invariant forall t :: t in cntr <==> t in cntr0 || t in doc[..j]
      invariant SumCounts(cntr) == SumCounts(cntr0) + j
    {
      assert doc[..j + 1][..j] == doc[..j];
      assert doc[..j + 1] == doc[..j] + [doc[j]];
      SumCountsIncrement(cntr, doc[j]);
      cntr := cntr[doc[j] := CountOf(cntr, doc[j]) + 1];
    }
    assert doc[..|doc|] == doc;
  }

  /**
   The counting loop of `read_data`: documents are appended to `data` one
   by one and every token of the new document increments its counter.
   */
  method ReadData(lines: seq<seq<string>>) returns (data: seq<seq<string>>, cntr: map<string, nat>)
    ensures data == lines
    ensures forall t :: CountOf(cntr, t) == Occ(lines, t)
    ensures forall t :: t in cntr <==> t in CorpusTokens(lines)
    ensures SumCounts(cntr) == TotalTokens(lines)
  {
    data := [];
    cntr := map[];
    var n := 0;
    while n < |lines|
      invariant 0 <= n <= |lines|
      invariant data == lines[..n]
      invariant forall t :: CountOf(cntr, t) == Occ(data, t)
      invariant forall t :: t in cntr <==> t in CorpusTokens(data)
      invariant SumCounts(cntr) == TotalTokens(data)
    {
      ghost var before := data;
      data := data + [lines[n]];
      assert data[..|data| - 1] == before;
      cntr := CountDocument(cntr, data[|data| - 1]);
      n := n + 1;
      assert lines[..n] == data;
    }
    assert lines[..n] == lines;
  }

  /** The counted tokens whose count exceeds `minCount`. */
  function Frequent(cntr: map<string, nat>, minCount: int): set<string>
  {
    set t | t in cntr && cntr[t] > minCount
  }

  /** `vocab_len`: the number of distinct counted tokens whose count exceeds `minCount`. */
  function VocabLen(cntr: map<string, nat>, minCount: int): (r: nat)
    ensures r <= |cntr|
    ensures r == |cntr| <== forall t :: t in cntr ==> cntr[t] > minCount
  {
    var f := Frequent(cntr, minCount);
    assert cntr.Keys == f + (cntr.Keys - f);
    |f|
  }

  /** The corpus tokens that occur more than `minCount` times. */
  function FrequentInCorpus(docs: seq<seq<string>>, minCount: int): set<string>
  {
    set t | t in CorpusTokens(docs) && Occ(docs, t) > minCount
  }

  /**
   Applied to the table `ReadData` builds, `VocabLen` is the number of
   distinct corpus tokens that occur more than `minCount` times.
   */
  lemma {:induction false} VocabLenOfCorpus(lines: seq<seq<string>>, cntr: map<string, nat>, minCount: int)
    requires forall t :: CountOf(cntr, t) == Occ(lines, t)
    requires forall t :: t in cntr <==> t in CorpusTokens(lines)
    ensures VocabLen(cntr, minCount) == |FrequentInCorpus(lines, minCount)|
  {
    forall t ensures t in Frequent(cntr, minCount) <==> t in FrequentInCorpus(lines, minCount) {
      assert CountOf(cntr, t) == Occ(lines, t);
    }
    assert Frequent(cntr, minCount) == FrequentInCorpus(lines, minCount);
  }

}
