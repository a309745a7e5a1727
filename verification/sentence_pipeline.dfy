/** The stream pipeline that turns the tokenizer's sentences into the nested
    lists of records: per sentence, drop the tokens whose word form is blank
    and reconcile the rest, keeping sentence and token order. An exception
    from any reconciled token aborts the whole pipeline. */
module SentencePipeline {
  import opened JavaStrings
  import opened OffsetReconciliation

  /** The `filter` step: the tokens whose word form is not blank, in order. */
  function KeptTokens(sentence: seq<Token>): (kept: seq<Token>)
    ensures |kept| <= |sentence|
    ensures forall t :: t in kept ==> t in sentence && IsNotBlank(t.wordForm)
    ensures forall t :: t in sentence && IsNotBlank(t.wordForm) ==> t in kept
  {
    if sentence == [] then []
    else if IsNotBlank(sentence[0].wordForm) then [sentence[0]] + KeptTokens(sentence[1..])
    else KeptTokens(sentence[1..])
  }

  /** Filtering a concatenation filters each part, so the kept tokens stay in
      their original relative order. */
  lemma {:induction false} KeptTokensAppend(a: seq<Token>, b: seq<Token>)
    ensures KeptTokens(a + b) == KeptTokens(a) + KeptTokens(b)
  {
    if a == [] {
      assert a + b == b;
    } else {
      assert (a + b)[0] == a[0] && (a + b)[1..] == a[1..] + b;
      KeptTokensAppend(a[1..], b);
      if IsNotBlank(a[0].wordForm) {
        calc {
          KeptTokens(a + b);
          [a[0]] + KeptTokens(a[1..] + b);
          [a[0]] + (KeptTokens(a[1..]) + KeptTokens(b));
          ([a[0]] + KeptTokens(a[1..])) + KeptTokens(b);
        }
      }
    }
  }

  /** A sentence without blank tokens is kept whole. */
  lemma {:induction false} KeptTokensNoBlank(sentence: seq<Token>)
    requires forall i :: 0 <= i < |sentence| ==> IsNotBlank(sentence[i].wordForm)
    ensures KeptTokens(sentence) == sentence
  {
    if sentence != [] {
      assert IsNotBlank(sentence[0].wordForm);
      var rest := sentence[1..];
      assert forall i :: 0 <= i < |rest| ==> rest[i] == sentence[i + 1];
      KeptTokensNoBlank(rest);
      assert sentence == [sentence[0]] + rest;
    }
  }

  /** `collect(toList())` over a stream whose elements may raise: the values
      in order, or, as soon as an element raises, that exception. */
  function Collect<T>(results: seq<Result<T>>): (r: Result<seq<T>>)
    ensures r.Ok? <==> forall i :: 0 <= i < |results| ==> results[i].Ok?
    ensures r.Ok? ==> (&& |r.value| == |results|
                       && forall i :: 0 <= i < |results| ==> results[i] == Ok(r.value[i]))
  {
    if results == [] then Ok([])
    else
      var head :- results[0];
      var tail :- Collect(results[1..]);
      Ok([head] + tail)
  }

  /** A failing stream fails with the exception of its first element that
      raises one: every element before it was computed. */
  lemma {:induction false} CollectFirstError<T>(results: seq<Result<T>>)
    requires Collect(results).Err?
    ensures exists i :: && 0 <= i < |results|
                        && results[i] == Err(Collect(results).error)
                        && forall j :: 0 <= j < i ==> results[j].Ok?
  {
    var rest := results[1..];
    if results[0].Ok? {
      assert Collect(results).error == Collect(rest).error;
      CollectFirstError(rest);
      var k :| && 0 <= k < |rest|
               && rest[k] == Err(Collect(rest).error)
               && forall j :: 0 <= j < k ==> rest[j].Ok?;
      assert results[k + 1] == rest[k];
      forall j | 0 <= j < k + 1 ensures results[j].Ok? {
        if j > 0 {
          assert results[j] == rest[j - 1];
        }
      }
    } else {
      assert results[0] == Err(Collect(results).error);
    }
  }

  /** The `map(tokenToMap)` and `collect` steps for one sentence: one record
      per token, in order, unless a token raises an exception, which then ends
      the stream. */
  function ReconcileAll(tokens: seq<Token>, fullText: string): (r: Result<seq<TokenRecord>>)
    ensures r.Ok? <==> forall i :: 0 <= i < |tokens| ==> Reconcile(tokens[i], fullText).Ok?
    ensures r.Ok? ==> (&& |r.value| == |tokens|
                       && forall i :: 0 <= i < |tokens| ==> Reconcile(tokens[i], fullText) == Ok(r.value[i]))
  {
    if tokens == [] then Ok([])
    else
      var head :- Reconcile(tokens[0], fullText);
      var tail :- ReconcileAll(tokens[1..], fullText);
      Ok([head] + tail)
  }

  /** A failing sentence fails with the exception of its first token that
      raises one: every token before it was reconciled. */
  lemma {:induction false} ReconcileAllFirstError(tokens: seq<Token>, fullText: string)
    requires ReconcileAll(tokens, fullText).Err?
    ensures exists i :: && 0 <= i < |tokens|
                        && Reconcile(tokens[i], fullText) == Err(ReconcileAll(tokens, fullText).error)
                        && forall j :: 0 <= j < i ==> Reconcile(tokens[j], fullText).Ok?
  {
    var rest := tokens[1..];
    if Reconcile(tokens[0], fullText).Ok? {
      assert ReconcileAll(tokens, fullText) == ReconcileAll(rest, fullText);
      ReconcileAllFirstError(rest, fullText);
      var k :| && 0 <= k < |rest|
               && Reconcile(rest[k], fullText) == Err(ReconcileAll(rest, fullText).error)
               && forall j :: 0 <= j < k ==> Reconcile(rest[j], fullText).Ok?;
      assert tokens[k + 1] == rest[k];
      forall j | 0 <= j < k + 1 ensures Reconcile(tokens[j], fullText).Ok? {
        if j > 0 {
          assert tokens[j] == rest[j - 1];
        }
      }
    }
  }

  /** One sentence: `filter(isNotBlank).map(tokenToMap).collect(toList())`. */
  function MapSentence(sentence: seq<Token>, fullText: string): Result<seq<TokenRecord>>
  {
    ReconcileAll(KeptTokens(sentence), fullText)
  }

  /** The outer `map`: each sentence's outcome, in order. */
  function MapEach(sentences: seq<seq<Token>>, fullText: string): (rs: seq<Result<seq<TokenRecord>>>)
    ensures |rs| == |sentences|
    ensures forall i :: 0 <= i < |sentences| ==> rs[i] == MapSentence(sentences[i], fullText)
  {
    if sentences == [] then []
    else [MapSentence(sentences[0], fullText)] + MapEach(sentences[1..], fullText)
  }

  /** The whole document: `sentences.stream().map(...).collect(toList())`.
      On success there is one list per sentence, in order, each that
      sentence's list; it fails exactly when some sentence fails. */
  function MapSentences(sentences: seq<seq<Token>>, fullText: string): (r: Result<seq<seq<TokenRecord>>>)
    ensures r.Ok? <==> forall i :: 0 <= i < |sentences| ==> MapSentence(sentences[i], fullText).Ok?
    ensures r.Ok? ==> (&& |r.value| == |sentences|
                       && forall i :: 0 <= i < |sentences| ==> MapSentence(sentences[i], fullText) == Ok(r.value[i]))
  {
    Collect(MapEach(sentences, fullText))
  }

  /** A failing document fails with the exception of its first failing
      sentence: every sentence before it was mapped. */
  lemma MapSentencesFirstError(sentences: seq<seq<Token>>, fullText: string)
    requires MapSentences(sentences, fullText).Err?
    ensures exists i :: && 0 <= i < |sentences|
                        && MapSentence(sentences[i], fullText) == Err(MapSentences(sentences, fullText).error)
                        && forall j :: 0 <= j < i ==> MapSentence(sentences[j], fullText).Ok?
  {
    CollectFirstError(MapEach(sentences, fullText));
  }

  /** Every emitted record comes from the kept token at the same position of
      the same sentence: its offsets lie in the document and are the token's,
      moved by zero or one, and its text is the word form unless the
      whitespace test replaced it. */
  lemma RecordsTrackKeptTokens(sentences: seq<seq<Token>>, fullText: string, i: nat, j: nat)
    requires MapSentences(sentences, fullText).Ok?
    requires i < |sentences|
    requires j < |MapSentences(sentences, fullText).value[i]|
    ensures var kept := KeptTokens(sentences[i]);
      var rec := MapSentences(sentences, fullText).value[i][j];
      && j < |kept|
      && IsNotBlank(kept[j].wordForm)
      && 0 <= rec.start <= rec.end <= |fullText|
      && (rec.start == kept[j].startOffset || rec.start == kept[j].startOffset + 1)
      && rec.end - rec.start == kept[j].endOffset - kept[j].startOffset
      && (rec.text == kept[j].wordForm || EqualsIgnoreCase(RemoveWhitespace(rec.text), kept[j].wordForm))
  {
    var kept := KeptTokens(sentences[i]);
    assert kept[j] in kept;
    ShiftBound(kept[j], fullText);
    OutputText(kept[j], fullText);
  }
}
