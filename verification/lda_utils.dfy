/**
 * The LDA helper functions: document filtering (`process_words`), the topic-count
 * sweep (`compute_coherence_values`) and the dominant-topic table
 * (`format_topics_sentences`). The tokenizer, phrase models, spaCy pipeline, LDA
 * training, coherence scoring and `show_topic` are parameters: opaque functions.
 */
module LdaUtils {
  import opened Results
  import opened Seqs
  import opened PyRange
  import opened PySorted

  // ---------------------------------------------------------------------------
  // process_words

  /** One token of a spaCy document: its lemma (`lemma_`) and coarse part-of-speech tag (`pos_`). */
  datatype Token = Token(lemmaText: string, pos: string)

  /** The language tools `process_words` relies on: gensim's `simple_preprocess`, the bigram and trigram phrase models, and the spaCy pipeline. */
  datatype LanguageTools = LanguageTools(
    simplePreprocess: string -> seq<string>,
    bigram: seq<string> -> seq<string>,
    trigram: seq<string> -> seq<string>,
    nlp: string -> seq<Token>)

  /** The default `allowed_postags`. */
  const DefaultAllowedPosTags: seq<string> := ["NOUN", "ADJ", "VERB", "ADV"]

  /** `[word for word in words if word not in stop_words]`. */
  function RemoveStopwords(words: seq<string>, stopWords: seq<string>): (r: seq<string>)
    ensures IsSubsequence(r, words)
    ensures forall w :: w in r <==> w in words && w !in stopWords
    ensures forall w :: w !in stopWords ==> multiset(r)[w] == multiset(words)[w]
  {
    Filter(words, w => w !in stopWords)
  }

  /** `[token.lemma_ for token in doc if token.pos_ in allowed_postags]`. */
  function KeepAllowedLemmas(doc: seq<Token>, allowed: seq<string>): (r: seq<string>)
    ensures |r| <= |doc|
    ensures forall w :: w in r ==> exists t :: t in doc && t.pos in allowed && t.lemmaText == w
    ensures forall t :: t in doc && t.pos in allowed ==> t.lemmaText in r
    ensures (forall j :: 0 <= j < |doc| ==> doc[j].pos in allowed) ==> |r| == |doc|
    decreases |doc|
  {
    if |doc| == 0 then []
    else
      var rest := KeepAllowedLemmas(doc[1..], allowed);
      assert doc == [doc[0]] + doc[1..];
      if doc[0].pos in allowed then [doc[0].lemmaText] + rest else rest
  }

  /** The condition of the comprehension in `KeepAllowedLemmas`. */
  function HasAllowedTag(allowed: seq<string>): (r: Token -> bool) {
    (t: Token) => t.pos in allowed
  }

  /** The lemma of every token, in order. */
  function LemmasOf(tokens: seq<Token>): (r: seq<string>) {
    seq(|tokens|, j requires 0 <= j < |tokens| => tokens[j].lemmaText)
  }

  /** `LemmasOf` distributes over putting one token in front. */
  lemma LemmasOfCons(t: Token, tokens: seq<Token>)
    ensures LemmasOf([t] + tokens) == [t.lemmaText] + LemmasOf(tokens)
  {
    var l, r := LemmasOf([t] + tokens), [t.lemmaText] + LemmasOf(tokens);
    forall j | 0 <= j < |l|
      ensures l[j] == r[j]
    {
      if j > 0 {
        assert ([t] + tokens)[j] == tokens[j - 1];
      }
    }
  }

  /**
   * Order and multiplicity: the kept lemmas are exactly the lemmas of the tokens
   * with an allowed tag, one per token, in document order.
   */
  lemma {:induction false} KeepAllowedLemmasFollowsTokens(doc: seq<Token>, allowed: seq<string>)
    ensures KeepAllowedLemmas(doc, allowed) == LemmasOf(Filter(doc, HasAllowedTag(allowed)))
    decreases |doc|
  {
    if |doc| > 0 {
      var keep := HasAllowedTag(allowed);
      KeepAllowedLemmasFollowsTokens(doc[1..], allowed);
      var rest := Filter(doc[1..], keep);
      if doc[0].pos in allowed {
        assert Filter(doc, keep) == [doc[0]] + rest;
        assert KeepAllowedLemmas(doc, allowed) == [doc[0].lemmaText] + KeepAllowedLemmas(doc[1..], allowed);
        LemmasOfCons(doc[0], rest);
      } else {
        assert Filter(doc, keep) == rest;
        assert KeepAllowedLemmas(doc, allowed) == KeepAllowedLemmas(doc[1..], allowed);
      }
    }
  }

  /** A document after stopword removal and the phrase models: the bigram model runs twice, then the trigram model. */
  function PhrasedDocument(doc: string, tools: LanguageTools, stopWords: seq<string>): (r: seq<string>) {
    tools.trigram(tools.bigram(tools.bigram(RemoveStopwords(tools.simplePreprocess(doc), stopWords))))
  }

  /** The lemmas `process_words` keeps for one document. */
  function ProcessDocument(doc: string, tools: LanguageTools, stopWords: seq<string>, allowed: seq<string>): (r: seq<string>) {
    KeepAllowedLemmas(tools.nlp(Join(PhrasedDocument(doc, tools, stopWords), " ")), allowed)
  }

  /** `process_words`, pass by pass as written: filter every document, bigram every document, bigram-then-trigram every document, then tag and lemmatize each one in a loop. */
  method ProcessWords(texts: seq<string>, tools: LanguageTools, stopWords: seq<string>, allowed: seq<string> := DefaultAllowedPosTags)
    returns (textsOut: seq<seq<string>>)
    ensures |textsOut| == |texts|
    ensures forall i :: 0 <= i < |texts| ==> textsOut[i] == ProcessDocument(texts[i], tools, stopWords, allowed)
  {
    var filtered := seq(|texts|, i requires 0 <= i < |texts| =>
      RemoveStopwords(tools.simplePreprocess(texts[i]), stopWords));
    var bigrammed := seq(|filtered|, i requires 0 <= i < |filtered| => tools.bigram(filtered[i]));
    var trigrammed := seq(|bigrammed|, i requires 0 <= i < |bigrammed| => tools.trigram(tools.bigram(bigrammed[i])));
    assert forall i :: 0 <= i < |texts| ==> trigrammed[i] == PhrasedDocument(texts[i], tools, stopWords);
    textsOut := MapEach(trigrammed, sent => KeepAllowedLemmas(tools.nlp(Join(sent, " ")), allowed));
  }

  // ---------------------------------------------------------------------------
  // compute_coherence_values

  /** The two parallel lists `compute_coherence_values` returns. */
  datatype Sweep<M, S> = Sweep(models: seq<M>, coherenceValues: seq<S>)

  /** The loop body of `compute_coherence_values`: for each topic count, train a model and record its coherence, keeping the two lists parallel. */
  method TrainAndScore<M, S>(counts: seq<int>, train: int -> M, coherence: M -> S) returns (sweep: Sweep<M, S>)
    ensures |sweep.models| == |sweep.coherenceValues| == |counts|
    ensures forall i :: 0 <= i < |counts| ==>
      sweep.models[i] == train(counts[i]) && sweep.coherenceValues[i] == coherence(sweep.models[i])
  {
    var models := [];
    var values := [];
    for i := 0 to |counts|
      invariant |models| == |values| == i
      invariant forall j :: 0 <= j < i ==> models[j] == train(counts[j]) && values[j] == coherence(models[j])
    {
      var model := train(counts[i]);
      models := models + [model];
      values := values + [coherence(model)];
    }
    sweep := Sweep(models, values);
  }

  /**
   * `compute_coherence_values`: trains one model per topic count in
   * `range(start, limit, step)` and scores each. `train` stands for LDA training
   * with that many topics and `coherence` for the c_v score of a model.
   */
  method ComputeCoherenceValues<M, S>(train: int -> M, coherence: M -> S, limit: int, start: int := 2, step: int := 3)
    returns (r: Result<Sweep<M, S>>)
    ensures r.Err? <==> step == 0
    ensures r.Ok? ==> |r.value.models| == |r.value.coherenceValues|
    ensures r.Ok? ==> forall i :: 0 <= i < |r.value.models| ==>
      r.value.models[i] == train(start + i * step) && r.value.coherenceValues[i] == coherence(r.value.models[i])
    ensures r.Ok? && step > 0 ==> forall i :: 0 <= i < |r.value.models| ==> start + i * step < limit
    ensures r.Ok? && step > 0 ==> start + |r.value.models| * step >= limit
    ensures r.Ok? && step < 0 ==> forall i :: 0 <= i < |r.value.models| ==> start + i * step > limit
    ensures r.Ok? && step < 0 ==> start + |r.value.models| * step <= limit
  {
    var counts := Range(start, limit, step);
    if counts.Err? {
      return Err(counts.error);
    }
    var ks := counts.value;
    var sweep := TrainAndScore(ks, train, coherence);
    forall i | 0 <= i < |ks|
      ensures ks[i] == start + i * step
      ensures step > 0 ==> start + i * step < limit
      ensures step < 0 ==> start + i * step > limit
    {
    }
    return Ok(sweep);
  }

  /** `compute_coherence_values(..., limit=8)` with the default `start=2, step=3` trains exactly two models, with 2 and 5 topics. */
  method DefaultSweepExample<M, S>(train: int -> M, coherence: M -> S) returns (r: Result<Sweep<M, S>>)
    ensures r == Ok(Sweep([train(2), train(5)], [coherence(train(2)), coherence(train(5))]))
  {
    r := ComputeCoherenceValues(train, coherence, 8);
    var models, values := r.value.models, r.value.coherenceValues;
    assert models[|models| - 1] == train(2 + (|models| - 1) * 3);
    assert |models| == 2;
    assert models == [train(2), train(5)];
    assert values == [coherence(train(2)), coherence(train(5))];
  }

  // ---------------------------------------------------------------------------
  // format_topics_sentences

  /** One `(topic_num, prop_topic)` entry of a document's topic distribution. */
  datatype TopicWeight = TopicWeight(topic: int, weight: real)

  /** The sort key `lambda x: x[1]`. */
  function Weight(tw: TopicWeight): (r: real) {
    tw.weight
  }

  /** One row of the table before the texts are attached: `Dominant_Topic`, `Perc_Contribution`, `Topic_Keywords`. */
  datatype TopicRecord = TopicRecord(dominantTopic: int, percContribution: real, topicKeywords: string)

  /** One row of the final table: either half may be missing (NaN) when the two columns have different lengths. */
  datatype OutputRow<T> = OutputRow(record: Option<TopicRecord>, text: Option<T>)

  /** The words of a `show_topic` result, without their probabilities. */
  function KeywordList(wordProbs: seq<(string, real)>): (r: seq<string>)
    ensures |r| == |wordProbs|
    ensures forall i :: 0 <= i < |r| ==> r[i] == wordProbs[i].0
  {
    seq(|wordProbs|, i requires 0 <= i < |wordProbs| => wordProbs[i].0)
  }

  /** The record for a non-empty row: the head of the row sorted by weight, descending, with its topic's keywords joined by ", ". */
  function DominantRecord(row: seq<TopicWeight>, showTopic: int -> seq<(string, real)>): (r: TopicRecord)
    requires |row| > 0
  {
    var best := SortDescending(row, Weight)[0];
    TopicRecord(best.topic, best.weight, Join(KeywordList(showTopic(best.topic)), ", "))
  }

  /**
   * The dominant topic has the greatest weight in its row, and among equal
   * weights it is the one listed first; the keywords are that topic's words.
   */
  lemma DominantIsEarliestMax(row: seq<TopicWeight>, showTopic: int -> seq<(string, real)>)
    requires |row| > 0
    ensures forall j :: 0 <= j < |row| ==> row[j].weight <= DominantRecord(row, showTopic).percContribution
    ensures exists i :: 0 <= i < |row| && row[i].topic == DominantRecord(row, showTopic).dominantTopic
                        && row[i].weight == DominantRecord(row, showTopic).percContribution
                        && forall j :: 0 <= j < i ==> row[j].weight < row[i].weight
    ensures DominantRecord(row, showTopic).topicKeywords == Join(KeywordList(showTopic(DominantRecord(row, showTopic).dominantTopic)), ", ")
  {
    SortedHeadIsFirstMax(row, Weight);
    var i := FirstMaxIndex(row, Weight);
    assert forall j :: 0 <= j < |row| ==> Weight(row[j]) <= Weight(row[i]);
  }

  /** The positions of the non-empty rows, in the order the loop visits them. */
  function NonEmptyIndices(rows: seq<seq<TopicWeight>>): (r: seq<nat>)
    ensures forall j :: 0 <= j < |r| ==> r[j] < |rows| && rows[r[j]] != []
    decreases |rows|
  {
    if |rows| == 0 then []
    else
      var last := |rows| - 1;
      var front := rows[..last];
      assert forall n :: 0 <= n < last ==> front[n] == rows[n];
      NonEmptyIndices(front) + (if rows[last] != [] then [last] else [])
  }

  /** The kept positions are increasing and include every non-empty row: each non-empty row yields exactly one record, in document order. */
  lemma {:induction false} NonEmptyIndicesComplete(rows: seq<seq<TopicWeight>>)
    ensures forall j, k :: 0 <= j < k < |NonEmptyIndices(rows)| ==> NonEmptyIndices(rows)[j] < NonEmptyIndices(rows)[k]
    ensures forall n :: 0 <= n < |rows| && rows[n] != [] ==> n in NonEmptyIndices(rows)
    decreases |rows|
  {
    if |rows| > 0 {
      var last := |rows| - 1;
      var front := rows[..last];
      NonEmptyIndicesComplete(front);
      var idx := NonEmptyIndices(front);
      assert NonEmptyIndices(rows) == idx + (if rows[last] != [] then [last] else []);
      forall n | 0 <= n < last && rows[n] != []
        ensures n in idx
      {
        assert front[n] == rows[n];
      }
    }
  }

  /** The records the loop appends, row by row: one per non-empty row, none for an empty one. */
  function DominantRecords(rows: seq<seq<TopicWeight>>, showTopic: int -> seq<(string, real)>): (r: seq<TopicRecord>)
    ensures |r| == |NonEmptyIndices(rows)|
    ensures forall j :: 0 <= j < |r| ==> r[j] == DominantRecord(rows[NonEmptyIndices(rows)[j]], showTopic)
    decreases |rows|
  {
    if |rows| == 0 then []
    else
      var last := |rows| - 1;
      var front := rows[..last];
      var prev := DominantRecords(front, showTopic);
      var idx := NonEmptyIndices(front);
      var all := NonEmptyIndices(rows);
      assert all == idx + (if rows[last] != [] then [last] else []);
      var r := prev + (if rows[last] != [] then [DominantRecord(rows[last], showTopic)] else []);
      forall j | 0 <= j < |r|
        ensures r[j] == DominantRecord(rows[all[j]], showTopic)
      {
        if j < |prev| {
          assert r[j] == prev[j] && all[j] == idx[j];
          assert front[idx[j]] == rows[idx[j]];
        }
      }
      r
  }

  /** The larger of two integers: the row count of the outer join. */
  function Max(a: int, b: int): (r: int) {
    if a < b then b else a
  }

  /** `pd.concat([records, pd.Series(texts)], axis=1)`: an outer join on the row position, so the shorter column is padded with missing cells. */
  function AlignByPosition<T>(records: seq<TopicRecord>, texts: seq<T>): (r: seq<OutputRow<T>>)
    ensures |r| == Max(|records|, |texts|)
    ensures forall j :: 0 <= j < |r| ==> r[j].record == if j < |records| then Some(records[j]) else None
    ensures forall j :: 0 <= j < |r| ==> r[j].text == if j < |texts| then Some(texts[j]) else None
    ensures forall j :: 0 <= j < |r| ==> r[j].record.Some? || r[j].text.Some?
    ensures |records| <= |r| && seq(|records|, j requires 0 <= j < |records| => r[j].record.value) == records
    ensures |texts| <= |r| && seq(|texts|, j requires 0 <= j < |texts| => r[j].text.value) == texts
  {
    seq(Max(|records|, |texts|), j requires 0 <= j < Max(|records|, |texts|) =>
      OutputRow(if j < |records| then Some(records[j]) else None,
                if j < |texts| then Some(texts[j]) else None))
  }

  /** No row is kept exactly when every row is empty. */
  lemma {:induction false} NoRowKeptIffAllEmpty(rows: seq<seq<TopicWeight>>)
    ensures |NonEmptyIndices(rows)| == 0 <==> forall i :: 0 <= i < |rows| ==> rows[i] == []
  {
    NonEmptyIndicesComplete(rows);
    if |NonEmptyIndices(rows)| == 0 {
      forall i | 0 <= i < |rows|
        ensures rows[i] == []
      {
      }
    } else {
      assert rows[NonEmptyIndices(rows)[0]] != [];
    }
  }

  /**
   * `format_topics_sentences`. Naming three columns of a table with no records
   * raises a length-mismatch `ValueError`. Otherwise the texts are attached by
   * position, with an outer join on the row number.
   */
  function FormatTopicsSentences<T>(rows: seq<seq<TopicWeight>>, texts: seq<T>, showTopic: int -> seq<(string, real)>)
    : (r: Result<seq<OutputRow<T>>>)
    ensures r.Err? <==> forall i :: 0 <= i < |rows| ==> rows[i] == []
    ensures r.Ok? ==> |r.value| == Max(|NonEmptyIndices(rows)|, |texts|)
    ensures r.Ok? ==> forall j :: 0 <= j < |r.value| ==>
      r.value[j].text == if j < |texts| then Some(texts[j]) else None
    ensures r.Ok? ==> forall j :: 0 <= j < |r.value| ==>
      r.value[j].record == if j < |NonEmptyIndices(rows)| then Some(DominantRecord(rows[NonEmptyIndices(rows)[j]], showTopic)) else None
  {
    var records := DominantRecords(rows, showTopic);
    NoRowKeptIffAllEmpty(rows);
    if |records| == 0 then
      Err(ValueError("Length mismatch: Expected axis has 0 elements, new values have 3 elements"))
    else
      Ok(AlignByPosition(records, texts))
  }

  /** With no empty row, every row is kept: the indices are 0, 1, ..., |rows| - 1. */
  lemma {:induction false} AllRowsKept(rows: seq<seq<TopicWeight>>)
    requires forall i :: 0 <= i < |rows| ==> rows[i] != []
    ensures |NonEmptyIndices(rows)| == |rows|
    ensures forall j :: 0 <= j < |rows| ==> NonEmptyIndices(rows)[j] == j
    decreases |rows|
  {
    if |rows| > 0 {
      var front := rows[..|rows| - 1];
      AllRowsKept(front);
    }
  }

  /** With exactly one empty row, at `k`, the rows after it move up by one place. */
  lemma {:induction false} OneRowSkipped(rows: seq<seq<TopicWeight>>, k: nat)
    requires k < |rows| && rows[k] == []
    requires forall i :: 0 <= i < |rows| && i != k ==> rows[i] != []
    ensures |NonEmptyIndices(rows)| == |rows| - 1
    ensures forall j :: 0 <= j < |rows| - 1 ==> NonEmptyIndices(rows)[j] == if j < k then j else j + 1
    decreases |rows|
  {
    var front := rows[..|rows| - 1];
    if k == |rows| - 1 {
      AllRowsKept(front);
    } else {
      OneRowSkipped(front, k);
    }
  }

  /** When every row has a topic and there are as many texts as rows, record `j` sits next to text `j`. */
  lemma FormatKeepsRowsAligned<T>(rows: seq<seq<TopicWeight>>, texts: seq<T>, showTopic: int -> seq<(string, real)>)
    requires |rows| > 0 && |texts| == |rows|
    requires forall i :: 0 <= i < |rows| ==> rows[i] != []
    ensures FormatTopicsSentences(rows, texts, showTopic).Ok?
    ensures |FormatTopicsSentences(rows, texts, showTopic).value| == |rows|
    ensures forall j :: 0 <= j < |rows| ==>
      FormatTopicsSentences(rows, texts, showTopic).value[j] == OutputRow(Some(DominantRecord(rows[j], showTopic)), Some(texts[j]))
  {
    AllRowsKept(rows);
  }

  /**
   * One empty row at `k` shifts every later record up by one place while the
   * texts stay put: from `k` on, each text is paired with the next row's record,
   * and the last text gets no record.
   */
  lemma SkippedRowShiftsRecords<T>(rows: seq<seq<TopicWeight>>, texts: seq<T>, showTopic: int -> seq<(string, real)>, k: nat)
    requires 1 < |rows| && k < |rows| && |texts| == |rows|
    requires rows[k] == []
    requires forall i :: 0 <= i < |rows| && i != k ==> rows[i] != []
    ensures FormatTopicsSentences(rows, texts, showTopic).Ok?
    ensures |FormatTopicsSentences(rows, texts, showTopic).value| == |rows|
    ensures forall j :: 0 <= j < k ==>
      FormatTopicsSentences(rows, texts, showTopic).value[j] == OutputRow(Some(DominantRecord(rows[j], showTopic)), Some(texts[j]))
    ensures forall j :: k <= j < |rows| - 1 ==>
      FormatTopicsSentences(rows, texts, showTopic).value[j] == OutputRow(Some(DominantRecord(rows[j + 1], showTopic)), Some(texts[j]))
    ensures FormatTopicsSentences(rows, texts, showTopic).value[|rows| - 1] == OutputRow(None, Some(texts[|rows| - 1]))
  {
    OneRowSkipped(rows, k);
  }
}
