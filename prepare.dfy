/**
 The data-preparation loop of the training script: the `token2idx`
 insert-or-get table, the frequency filter, the example loop that appends
 to the three parallel lists `input_docs`, `input_tokens` and `outputs`,
 and the inverse table `idx2token`.

 The random source is modelled by nondeterministic choice: a draw is some
 integer of the requested range and nothing more is known about it.
 */
module Prepare {

  import opened Wrappers
  import opened Counting
  import opened Vocab
  import opened Stream

  /** One call of `random.randint(lo, hi)`: some integer of `[lo, hi]`, or None where Python raises `ValueError` for an empty range. */
  method RandInt(lo: int, hi: int) returns (r: Option<int>)
    ensures r.Some? <==> lo <= hi
    ensures r.Some? ==> lo <= r.value <= hi
  {
    if lo <= hi {
      var x :| lo <= x <= hi;
      r := Some(x);
    } else {
      r := None;
    }
  }

  /** The negatives of one token: `nsRate` IDs, each drawn independently from `[1, vocabLen - 1]`. */
  method DrawNegatives(nsRate: nat, vocabLen: nat) returns (r: Option<seq<int>>)
    ensures r.None? <==> nsRate > 0 && vocabLen < 2
    ensures r.Some? ==> |r.value| == nsRate
    ensures r.Some? ==> forall j :: 0 <= j < nsRate ==> 1 <= r.value[j] <= vocabLen - 1
  {
    var negs: seq<int> := [];
    for x := 0 to nsRate
      invariant |negs| == x
      invariant forall j :: 0 <= j < x ==> 1 <= negs[j] <= vocabLen - 1
      invariant x > 0 ==> vocabLen >= 2
    {
      var d := RandInt(1, vocabLen - 1);
      if d.None? {
        return None;
      }
      negs := negs + [d.value];
    }
    return Some(negs);
  }

  /**
   The preparation state: the frequency table used by the filter, the
   sampling settings, the insert-or-get table with its next-ID counter, and
   the three output lists. The ghost fields record every token looked up
   and every group of negatives drawn, in order.
   */
  class Preparer {
    /** The count table the filter reads (the one loaded from file). */
    const freq: map<string, nat>
    const minCount: int
    const nsRate: nat
    /** The vocabulary size computed from the corpus counts; it bounds the negative draws. */
    const vocabLen: nat

    var token2idx: map<string, nat>
    /** `len(token2idx)`, the value the default factory hands out next. */
    var nextId: nat
    var inputDocs: seq<int>
    var inputTokens: seq<int>
    var outputs: seq<int>

    ghost var lookups: seq<string>
    ghost var negatives: seq<seq<int>>

    ghost predicate Valid()
      reads this
    {
      && token2idx == Ids(lookups)
      && nextId == |token2idx|
      && |inputDocs| == |inputTokens| == |outputs|
      && Uniform(negatives, nsRate)
      && NegativesInRange(negatives, vocabLen)
    }

    constructor (freq: map<string, nat>, minCount: int, nsRate: nat, vocabLen: nat)
      ensures Valid()
      ensures this.freq == freq && this.minCount == minCount
      ensures this.nsRate == nsRate && this.vocabLen == vocabLen
      ensures token2idx == map[] && lookups == [] && negatives == []
      ensures inputDocs == [] && inputTokens == [] && outputs == []
    {
      this.freq := freq;
      this.minCount := minCount;
      this.nsRate := nsRate;
      this.vocabLen := vocabLen;
      token2idx := map[];
      nextId := 0;
      inputDocs, inputTokens, outputs := [], [], [];
      lookups := [];
      negatives := [];
    }

    /** `token2idx[token]`: the token's ID, stored first as the next dense ID if it has none. */
    method Lookup(t: string) returns (id: nat)
      requires Valid()
      modifies this`token2idx, this`nextId, this`lookups
      ensures Valid()
      ensures lookups == old(lookups) + [t]
      ensures t in old(token2idx) ==> id == old(token2idx)[t] && token2idx == old(token2idx)
      ensures t !in old(token2idx) ==> id == old(|token2idx|) && token2idx == old(token2idx)[t := id]
      ensures t in token2idx && token2idx[t] == id
      ensures forall u :: u in old(token2idx) ==> u in token2idx && token2idx[u] == old(token2idx)[u]
    {
      if t in token2idx {
        id := token2idx[t];
      } else {
        id := nextId;
        token2idx := token2idx[t := id];
        nextId := nextId + 1;
      }
      lookups := lookups + [t];
      assert lookups[..|lookups| - 1] == old(lookups);
    }

    /** The IDs of one document: each token whose filter count exceeds `minCount` is looked up in turn, and its ID collected in order. */
    method TokenIds(tokens: seq<string>) returns (ids: seq<nat>)
      requires Valid()
      modifies this`token2idx, this`nextId, this`lookups
      ensures Valid()
      ensures lookups == old(lookups) + Survivors(tokens, freq, minCount)
      ensures forall t :: t in Survivors(tokens, freq, minCount) ==> t in token2idx
      ensures ids == IdsOf(token2idx, Survivors(tokens, freq, minCount))
    {
      ids := [];
      for i := 0 to |tokens|
        invariant Valid()
        invariant lookups == old(lookups) + Survivors(tokens[..i], freq, minCount)
        invariant forall t :: t in Survivors(tokens[..i], freq, minCount) ==> t in token2idx
        invariant ids == IdsOf(token2idx, Survivors(tokens[..i], freq, minCount))
      {
        ghost var s := Survivors(tokens[..i], freq, minCount);
        if CountOf(freq, tokens[i]) > minCount {
          SurvivorsKeep(tokens, i, freq, minCount);
          ghost var table, seen := token2idx, lookups;
          var id := Lookup(tokens[i]);
          IdsOfNext(table, token2idx, s, tokens[i], ids, id);
          Snoc(old(lookups), seen, lookups, s, Survivors(tokens[..i + 1], freq, minCount), tokens[i]);
          ids := ids + [id];
        } else {
          SurvivorsDrop(tokens, i, freq, minCount);
        }
      }
      assert tokens[..|tokens|] == tokens;
    }

    /** The examples of one token occurrence (the inner loop body, train.py lines 123-127): its ID and negatives, the document index, and the labels. */
    method AppendGroup(docId: int, id: nat, negs: seq<int>)
      requires Valid()
      requires |negs| == nsRate && forall j :: 0 <= j < nsRate ==> 1 <= negs[j] <= vocabLen - 1
      modifies this`inputDocs, this`inputTokens, this`outputs, this`negatives
      ensures Valid()
      ensures inputTokens == old(inputTokens) + [id] + negs
      ensures inputDocs == old(inputDocs) + seq(nsRate + 1, _ => docId)
      ensures outputs == old(outputs) + [1] + Zeros(nsRate)
      ensures negatives == old(negatives) + [negs]
    {
      ZerosShape(nsRate);
      NegativesSnoc(negatives, negs, nsRate, vocabLen);
      inputTokens := inputTokens + [id] + negs;
      inputDocs := inputDocs + seq(nsRate + 1, _ => docId);
      outputs := outputs + [1] + Zeros(nsRate);
      negatives := negatives + [negs];
    }

    /**
     One pass of the inner loop (train.py lines 123-127): draw the negatives for
     `tokenIds[i]` and append its group, so that the lists, which held the
     groups of `tokenIds[..i]` after the ghost starting values, now hold
     the groups of `tokenIds[..i + 1]`.
     */
    method AppendNext(docId: int, tokenIds: seq<nat>, i: nat, ghost drawn: seq<seq<int>>,
                      ghost negs0: seq<seq<int>>, ghost docs0: seq<int>, ghost toks0: seq<int>, ghost outs0: seq<int>)
      returns (ok: bool, ghost drawn': seq<seq<int>>)
      requires i < |tokenIds| && Valid()
      requires |drawn| == i && negatives == negs0 + drawn
      requires inputDocs == docs0 + DocBlock(docId, i, nsRate)
      requires inputTokens == toks0 + TokenColumn(tokenIds[..i], drawn)
      requires outputs == outs0 + Labels(i, nsRate)
      modifies this`inputDocs, this`inputTokens, this`outputs, this`negatives
      ensures Valid()
      ensures ok <==> !(nsRate > 0 && vocabLen < 2)
      ensures ok ==> |drawn'| == i + 1 && negatives == negs0 + drawn'
      ensures ok ==> inputDocs == docs0 + DocBlock(docId, i + 1, nsRate)
      ensures ok ==> inputTokens == toks0 + TokenColumn(tokenIds[..i + 1], drawn')
      ensures ok ==> outputs == outs0 + Labels(i + 1, nsRate)
    {
      drawn' := drawn;
      var negs := DrawNegatives(nsRate, vocabLen);
      if negs.None? {
        return false, drawn';
      }
      ok := true;
      ghost var toks1, docs1, outs1, negs1 := inputTokens, inputDocs, outputs, negatives;
      AppendGroup(docId, tokenIds[i], negs.value);
      drawn' := drawn + [negs.value];
      TokenColumnStep(toks0, toks1, inputTokens, tokenIds, i, drawn, negs.value);
      DocBlockStep(docs0, docs1, inputDocs, docId, i, nsRate);
      LabelsStep(outs0, outs1, outputs, i, nsRate);
      Snoc(negs0, negs1, negatives, drawn, drawn', negs.value);
    }

    /** The inner loop (train.py lines 123-127): one group of examples for each ID of `tokenIds`, all tagged `docId`. */
    method AppendExamples(docId: int, tokenIds: seq<nat>) returns (ok: bool)
      requires Valid()
      modifies this`inputDocs, this`inputTokens, this`outputs, this`negatives
      ensures Valid()
      ensures ok <==> !(nsRate > 0 && vocabLen < 2 && |tokenIds| > 0)
      ensures ok ==> |negatives| == |old(negatives)| + |tokenIds|
      ensures ok ==> negatives[..|old(negatives)|] == old(negatives)
      ensures ok ==> inputDocs == old(inputDocs) + DocBlock(docId, |tokenIds|, nsRate)
      ensures ok ==> inputTokens == old(inputTokens) + TokenColumn(tokenIds, negatives[|old(negatives)|..])
      ensures ok ==> outputs == old(outputs) + Labels(|tokenIds|, nsRate)
    {
      ok := true;
      ghost var drawn: seq<seq<int>> := [];
      for i := 0 to |tokenIds|
        invariant Valid()
        invariant i > 0 ==> !(nsRate > 0 && vocabLen < 2)
        invariant |drawn| == i && negatives == old(negatives) + drawn
        invariant inputDocs == old(inputDocs) + DocBlock(docId, i, nsRate)
        invariant inputTokens == old(inputTokens) + TokenColumn(tokenIds[..i], drawn)
        invariant outputs == old(outputs) + Labels(i, nsRate)
      {
        ok, drawn := AppendNext(docId, tokenIds, i, drawn, old(negatives), old(inputDocs), old(inputTokens), old(outputs));
        if !ok {
          return;
        }
      }
      CutAfter(negatives, old(negatives), drawn);
      assert tokenIds[..|tokenIds|] == tokenIds;
    }

    /** One document (train.py lines 122-127): filter its tokens and map them to IDs, then append one group per surviving token. */
    method AddDocument(docId: int, tokens: seq<string>) returns (ok: bool)
      requires Valid()
      modifies this
      ensures Valid()
      ensures lookups == old(lookups) + Survivors(tokens, freq, minCount)
      ensures forall t :: t in old(token2idx) ==> t in token2idx && token2idx[t] == old(token2idx)[t]
      ensures forall t :: t in Survivors(tokens, freq, minCount) ==> t in token2idx
      ensures ok <==> !(nsRate > 0 && vocabLen < 2 && |Survivors(tokens, freq, minCount)| > 0)
      ensures ok ==> |negatives| == |old(negatives)| + |Survivors(tokens, freq, minCount)|
      ensures ok ==> negatives[..|old(negatives)|] == old(negatives)
      ensures ok ==> inputDocs == old(inputDocs) + DocBlock(docId, |Survivors(tokens, freq, minCount)|, nsRate)
      ensures ok ==> inputTokens == old(inputTokens)
                       + TokenColumn(IdsOf(token2idx, Survivors(tokens, freq, minCount)), negatives[|old(negatives)|..])
      ensures ok ==> outputs == old(outputs) + Labels(|Survivors(tokens, freq, minCount)|, nsRate)
    {
      IdsStable(lookups, Survivors(tokens, freq, minCount));
      var tokenIds := TokenIds(tokens);
      ok := AppendExamples(docId, tokenIds);
    }

    /**
     One pass of the document loop (train.py lines 118-127): document `d` goes
     through `AddDocument`, and the lists, which held what documents
     `0 .. d-1` produce, now hold what documents `0 .. d` produce.
     */
    method AddNext(data: seq<seq<string>>, d: nat) returns (ok: bool)
      requires d < |data| && Valid()
      requires forall t :: t in Scan(data[..d], freq, minCount) ==> t in token2idx
      requires !(nsRate > 0 && vocabLen < 2 && |Scan(data[..d], freq, minCount)| > 0)
      requires lookups == Scan(data[..d], freq, minCount)
      requires |negatives| == |Scan(data[..d], freq, minCount)|
      requires inputDocs == DocColumn(data[..d], freq, minCount, nsRate)
      requires inputTokens == TokenColumn(IdsOf(token2idx, Scan(data[..d], freq, minCount)), negatives)
      requires outputs == Labels(|Scan(data[..d], freq, minCount)|, nsRate)
      modifies this
      ensures Valid()
      ensures ok ==> forall t :: t in Scan(data[..d + 1], freq, minCount) ==> t in token2idx
      ensures ok <==> !(nsRate > 0 && vocabLen < 2 && |Scan(data[..d + 1], freq, minCount)| > 0)
      ensures ok ==> lookups == Scan(data[..d + 1], freq, minCount)
      ensures ok ==> |negatives| == |Scan(data[..d + 1], freq, minCount)|
      ensures ok ==> inputDocs == DocColumn(data[..d + 1], freq, minCount, nsRate)
      ensures ok ==> inputTokens == TokenColumn(IdsOf(token2idx, Scan(data[..d + 1], freq, minCount)), negatives)
      ensures ok ==> outputs == Labels(|Scan(data[..d + 1], freq, minCount)|, nsRate)
    {
      ghost var table, negs1, toks1, outs1 := token2idx, negatives, inputTokens, outputs;
      ScanStep(data, d, freq, minCount, nsRate);
      ok := AddDocument(d, data[d]);
      if ok {
        TokenColumnNext(data, d, freq, minCount, table, token2idx, negs1, negatives, toks1, inputTokens);
        LabelsNext(outs1, outputs, |Scan(data[..d], freq, minCount)|, |Survivors(data[d], freq, minCount)|,
                   |Scan(data[..d + 1], freq, minCount)|, nsRate);
      }
    }

    /**
     The document loop (train.py lines 116-127): starting from the empty
     table and lists, every document in turn, numbered from 0.
     */
    method AddAll(data: seq<seq<string>>) returns (ok: bool)
      requires Valid()
      requires token2idx == map[] && lookups == [] && negatives == []
      requires inputDocs == [] && inputTokens == [] && outputs == []
      modifies this
      ensures Valid()
      ensures ok <==> !(nsRate > 0 && vocabLen < 2 && |Scan(data, freq, minCount)| > 0)
      ensures ok ==> forall t :: t in Scan(data, freq, minCount) ==> t in token2idx
      ensures ok ==> lookups == Scan(data, freq, minCount)
      ensures ok ==> |negatives| == |Scan(data, freq, minCount)|
      ensures ok ==> inputDocs == DocColumn(data, freq, minCount, nsRate)
      ensures ok ==> inputTokens == TokenColumn(IdsOf(token2idx, Scan(data, freq, minCount)), negatives)
      ensures ok ==> outputs == Labels(|Scan(data, freq, minCount)|, nsRate)
    {
      ok := true;
      assert data[..0] == [];
      for d := 0 to |data|
        invariant Valid()
        invariant forall t :: t in Scan(data[..d], freq, minCount) ==> t in token2idx
        invariant !(nsRate > 0 && vocabLen < 2 && |Scan(data[..d], freq, minCount)| > 0)
        invariant lookups == Scan(data[..d], freq, minCount)
        invariant |negatives| == |Scan(data[..d], freq, minCount)|
        invariant inputDocs == DocColumn(data[..d], freq, minCount, nsRate)
        invariant inputTokens == TokenColumn(IdsOf(token2idx, Scan(data[..d], freq, minCount)), negatives)
        invariant outputs == Labels(|Scan(data[..d], freq, minCount)|, nsRate)
      {
        ok := AddNext(data, d);
        if !ok {
          ScanStep(data, d, freq, minCount, nsRate);
          return;
        }
      }
      assert data[..|data|] == data;
    }
  }

  /**
   The preparation part of train.py (lines 104-141): count the corpus,
   take `vocab_len` from those counts, build the examples with the loaded
   table as filter, and invert the token table.
   */
  method PrepareData(lines: seq<seq<string>>, loaded: map<string, nat>, minCount: int, nsRate: nat)
    returns (p: Preparer, idx2token: map<nat, string>, ok: bool)
    ensures fresh(p) && p.Valid()
    ensures p.freq == loaded && p.minCount == minCount && p.nsRate == nsRate
    ensures p.vocabLen == |FrequentInCorpus(lines, minCount)|
    ensures ok <==> !(nsRate > 0 && p.vocabLen < 2 && |Scan(lines, loaded, minCount)| > 0)
    ensures ok ==> p.token2idx == Ids(Scan(lines, loaded, minCount))
    ensures ok ==> p.outputs == Labels(|Scan(lines, loaded, minCount)|, nsRate)
    ensures ok ==> p.inputDocs == DocColumn(lines, loaded, minCount, nsRate)
    ensures ok ==> forall t :: t in Scan(lines, loaded, minCount) ==> t in p.token2idx
    ensures ok ==> |p.negatives| == |Scan(lines, loaded, minCount)|
    ensures ok ==> p.inputTokens == TokenColumn(IdsOf(p.token2idx, Scan(lines, loaded, minCount)), p.negatives)
    ensures ok ==> forall i: nat :: i in idx2token <==> i < |p.token2idx|
    ensures ok ==> forall t :: t in p.token2idx ==> p.token2idx[t] in idx2token && idx2token[p.token2idx[t]] == t
    ensures ok ==> forall i :: i in idx2token ==> idx2token[i] in p.token2idx && p.token2idx[idx2token[i]] == i
  {
    var data, cntr := ReadData(lines);
    VocabLenOfCorpus(lines, cntr, minCount);
    p := new Preparer(loaded, minCount, nsRate, VocabLen(cntr, minCount));
    ok := p.AddAll(data);
    if ok {
      IdsInverse(p.lookups);
      idx2token := Invert(p.token2idx);
    } else {
      idx2token := map[];
    }
  }

  /**
   The table `token2idx` ends up with holds exactly the corpus tokens whose
   count in the filter table exceeds `minCount`, with dense distinct IDs.
   */
  lemma {:induction false} TableKeys(lines: seq<seq<string>>, freq: map<string, nat>, minCount: int)
    ensures forall t :: t in Ids(Scan(lines, freq, minCount)) <==> t in CorpusTokens(lines) && CountOf(freq, t) > minCount
    ensures Dense(Ids(Scan(lines, freq, minCount))) && Injective(Ids(Scan(lines, freq, minCount)))
  {
    IdsKeys(Scan(lines, freq, minCount));
    ScanMembers(lines, freq, minCount);
    IdsDenseInjective(Scan(lines, freq, minCount));
  }

  /**
   When the filter reads the corpus's own counts, `token2idx` has exactly
   `vocab_len` entries and every ID lies below `vocab_len`.
   */
  lemma {:induction false} CorpusFilterMatchesVocab(lines: seq<seq<string>>, freq: map<string, nat>, minCount: int)
    requires forall t :: CountOf(freq, t) == Occ(lines, t)
    ensures Ids(Scan(lines, freq, minCount)).Keys == FrequentInCorpus(lines, minCount)
    ensures |Ids(Scan(lines, freq, minCount))| == |FrequentInCorpus(lines, minCount)|
    ensures forall t :: t in Ids(Scan(lines, freq, minCount))
                    ==> Ids(Scan(lines, freq, minCount))[t] < |FrequentInCorpus(lines, minCount)|
  {
    var table := Ids(Scan(lines, freq, minCount));
    TableKeys(lines, freq, minCount);
    forall t ensures t in table <==> t in FrequentInCorpus(lines, minCount) {
      OccPositive(lines, t);
    }
    assert table.Keys == FrequentInCorpus(lines, minCount);
    forall t | t in table ensures table[t] < |table| {
      assert table[t] in table.Values;
    }
  }

  /**
   With a loaded table different from the corpus counts the two drift
   apart: a one-token corpus whose token is frequent only in the loaded
   table gets ID 0 while `vocab_len` is 0.
   */
  lemma LoadedFilterCanExceedVocab()
    ensures Ids(Scan([["a"]], map["a" := 20], 10)) == map["a" := 0]
    ensures |FrequentInCorpus([["a"]], 10)| == 0
  {
    var lines: seq<seq<string>> := [["a"]];
    assert lines[..0] == [];
    assert ["a"][..0] == [];
    assert Survivors(["a"], map["a" := 20], 10) == ["a"];
    assert Scan(lines, map["a" := 20], 10) == ["a"];
    forall t ensures Occ(lines, t) <= 1 {
      assert Occ(lines, t) == OccIn(["a"], t);
    }
    assert FrequentInCorpus(lines, 10) == {};
  }

}
