/** `tokenToMap`: turns a token the tokenizer reports (provisional offsets
    and a word form) into the record that is emitted for it, checking the
    offsets against the document text and repairing a one-character drift. */
module OffsetReconciliation {
  import opened JavaStrings

  /** A token as the tokenizer reports it. */
  datatype Token = Token(startOffset: int, endOffset: int, wordForm: string)

  /** The emitted record: its "start", "end" and "text" entries. */
  datatype TokenRecord = TokenRecord(start: int, end: int, text: string)

  /** Which test of the ladder settled the token. */
  datatype Rung =
    | Direct      // the document slice at the reported offsets matches the word form
    | Shifted     // the slice one character further on matches it
    | Collapsed   // the slice matches it once its whitespace is removed
    | Unverified  // none of the above

  // ---------------------------------------------------------------------------
  // The tests of the ladder
  // ---------------------------------------------------------------------------

  /** The reported offsets delimit a slice of the document. */
  predicate SpanInRange(t: Token, doc: string)
  {
    0 <= t.startOffset <= t.endOffset <= |doc|
  }

  /** The slice one character further on also lies within the document. */
  predicate ShiftInRange(t: Token, doc: string)
  {
    SpanInRange(t, doc) && t.endOffset + 1 <= |doc|
  }

  function Slice(t: Token, doc: string): string
    requires SpanInRange(t, doc)
  {
    doc[t.startOffset..t.endOffset]
  }

  function ShiftedSlice(t: Token, doc: string): string
    requires ShiftInRange(t, doc)
  {
    doc[t.startOffset + 1..t.endOffset + 1]
  }

  predicate MatchesDirect(t: Token, doc: string)
    requires SpanInRange(t, doc)
  {
    EqualsIgnoreCase(Slice(t, doc), t.wordForm)
  }

  predicate MatchesShifted(t: Token, doc: string)
    requires ShiftInRange(t, doc)
  {
    EqualsIgnoreCase(ShiftedSlice(t, doc), t.wordForm)
  }

  predicate MatchesCollapsed(t: Token, doc: string)
    requires SpanInRange(t, doc)
  {
    EqualsIgnoreCase(RemoveWhitespace(Slice(t, doc)), t.wordForm)
  }

  // ---------------------------------------------------------------------------
  // The specification: the first test that succeeds decides the record
  // ---------------------------------------------------------------------------

  /** The rung that settles t, or the exception of the first `substring`
      whose indices fall outside the document. */
  function Classify(t: Token, doc: string): (r: Result<Rung>)
    ensures r.Ok? ==> SpanInRange(t, doc)
  {
    if !SpanInRange(t, doc) then Err(StringIndexOutOfBounds(t.startOffset, t.endOffset, |doc|))
    else if MatchesDirect(t, doc) then Ok(Direct)
    else if !ShiftInRange(t, doc) then Err(StringIndexOutOfBounds(t.startOffset + 1, t.endOffset + 1, |doc|))
    else if MatchesShifted(t, doc) then Ok(Shifted)
    else if MatchesCollapsed(t, doc) then Ok(Collapsed)
    else Ok(Unverified)
  }

  /** The record each rung produces. */
  function Outcome(t: Token, doc: string, rung: Rung): TokenRecord
    requires SpanInRange(t, doc)
  {
    match rung
    case Direct => TokenRecord(t.startOffset, t.endOffset, t.wordForm)
    case Shifted => TokenRecord(t.startOffset + 1, t.endOffset + 1, t.wordForm)
    case Collapsed => TokenRecord(t.startOffset, t.endOffset, Slice(t, doc))
    case Unverified => TokenRecord(t.startOffset, t.endOffset, t.wordForm)
  }

  function Reconcile(t: Token, doc: string): Result<TokenRecord>
  {
    var rung :- Classify(t, doc);
    Ok(Outcome(t, doc, rung))
  }

  // ---------------------------------------------------------------------------
  // The operation, step by step as the source performs it
  // ---------------------------------------------------------------------------

  /** Fills in start, end and text from the token, compares the slice of
      fullTxt at the token's offsets with its word form, on a mismatch tries
      the slice one character further on and, if that matches, adopts it and
      moves both offsets; finally, if the slice in hand still does not match
      but does once its whitespace is removed, takes it as the text. */
  method TokenToMap(t: Token, fullTxt: string) returns (r: Result<TokenRecord>)
    ensures r == Reconcile(t, fullTxt)
  {
    var start, end, text := t.startOffset, t.endOffset, t.wordForm;
    var docTxt :- Substring(fullTxt, t.startOffset, t.endOffset);
    if !EqualsIgnoreCase(docTxt, t.wordForm) {
      var tmpTxt :- Substring(fullTxt, t.startOffset + 1, t.endOffset + 1);
      if EqualsIgnoreCase(tmpTxt, t.wordForm) {
        docTxt := tmpTxt;
        start, end := t.startOffset + 1, t.endOffset + 1;
      }
    }
    if !EqualsIgnoreCase(docTxt, t.wordForm) && EqualsIgnoreCase(RemoveWhitespace(docTxt), t.wordForm) {
      text := docTxt;
    }
    r := Ok(TokenRecord(start, end, text));
  }

  // ---------------------------------------------------------------------------
  // Properties of the outcome
  // ---------------------------------------------------------------------------

  /** No exception is thrown exactly when the slice lies in the document and
      either it matches or the shifted slice lies in the document too; the
      exception names the indices of the `substring` that failed. */
  lemma NoExceptionIff(t: Token, doc: string)
    ensures Reconcile(t, doc).Ok? <==>
              SpanInRange(t, doc) && (MatchesDirect(t, doc) || ShiftInRange(t, doc))
    ensures !SpanInRange(t, doc) ==>
              Reconcile(t, doc) == Err(StringIndexOutOfBounds(t.startOffset, t.endOffset, |doc|))
    ensures SpanInRange(t, doc) && !MatchesDirect(t, doc) && !ShiftInRange(t, doc) ==>
              Reconcile(t, doc) == Err(StringIndexOutOfBounds(t.startOffset + 1, t.endOffset + 1, |doc|))
  {
  }

  /** A token that ends at the end of the document and does not match there
      raises the exception, even when its whitespace-free slice would match. */
  lemma MismatchAtDocumentEndThrows(t: Token, doc: string)
    requires SpanInRange(t, doc) && t.endOffset == |doc|
    requires !MatchesDirect(t, doc)
    ensures Reconcile(t, doc).Err?
  {
  }

  /** A matching slice keeps the token as reported. */
  lemma DirectMatch(t: Token, doc: string)
    requires SpanInRange(t, doc) && MatchesDirect(t, doc)
    ensures Reconcile(t, doc) == Ok(TokenRecord(t.startOffset, t.endOffset, t.wordForm))
  {
  }

  /** On a mismatch, a matching shifted slice moves both offsets by one and
      keeps the word form as the text. */
  lemma ShiftedMatch(t: Token, doc: string)
    requires SpanInRange(t, doc) && !MatchesDirect(t, doc)
    requires ShiftInRange(t, doc) && MatchesShifted(t, doc)
    ensures Reconcile(t, doc) == Ok(TokenRecord(t.startOffset + 1, t.endOffset + 1, t.wordForm))
  {
  }

  /** The offsets move by zero or one, both by the same amount, and stay
      within the document. */
  lemma ShiftBound(t: Token, doc: string)
    requires Reconcile(t, doc).Ok?
    ensures var rec := Reconcile(t, doc).value;
      && (rec.start == t.startOffset || rec.start == t.startOffset + 1)
      && rec.end - rec.start == t.endOffset - t.startOffset
      && 0 <= rec.start <= rec.end <= |doc|
  {
  }

  /** The text differs from the word form exactly when neither slice matches
      but the unshifted one does without its whitespace; it is then that slice,
      and the offsets are the reported ones. */
  lemma TextReplacedIff(t: Token, doc: string)
    requires Reconcile(t, doc).Ok?
    ensures var rec := Reconcile(t, doc).value;
      && (rec.text != t.wordForm <==>
            !MatchesDirect(t, doc) && !MatchesShifted(t, doc) && MatchesCollapsed(t, doc))
      && (rec.text != t.wordForm ==>
            rec.text == Slice(t, doc) && rec.start == t.startOffset && rec.end == t.endOffset)
  {
    if !MatchesDirect(t, doc) && !MatchesShifted(t, doc) && MatchesCollapsed(t, doc) {
      EqualsIgnoreCaseReflexive(t.wordForm);
    }
  }

  /** The offset shift and the text replacement never both happen. */
  lemma ShiftExcludesReplacement(t: Token, doc: string)
    requires Reconcile(t, doc).Ok?
    ensures var rec := Reconcile(t, doc).value;
      !(rec.start != t.startOffset && rec.text != t.wordForm)
  {
  }

  /** The text is the word form, or a string that equals it ignoring case once
      its whitespace is removed; in the latter case it holds whitespace and is
      strictly longer than the word form. */
  lemma OutputText(t: Token, doc: string)
    requires Reconcile(t, doc).Ok?
    ensures var rec := Reconcile(t, doc).value;
      || rec.text == t.wordForm
      || (&& EqualsIgnoreCase(RemoveWhitespace(rec.text), t.wordForm)
          && HasRegexSpace(rec.text)
          && |rec.text| > |t.wordForm|)
  {
    var rec := Reconcile(t, doc).value;
    if rec.text != t.wordForm {
      TextReplacedIff(t, doc);
      RemoveWhitespaceFixedPoint(rec.text);
    }
  }

  /** The record is consistent with the document: the slice at its offsets
      equals its text ignoring case, or equals the word form ignoring case once
      its whitespace is removed. */
  predicate Verified(rec: TokenRecord, wordForm: string, doc: string)
  {
    && 0 <= rec.start <= rec.end <= |doc|
    && (|| EqualsIgnoreCase(doc[rec.start..rec.end], rec.text)
        || EqualsIgnoreCase(RemoveWhitespace(doc[rec.start..rec.end]), wordForm))
  }

  /** The record is consistent with the document exactly when one of the
      three tests succeeded. */
  lemma VerifiedIff(t: Token, doc: string)
    requires Reconcile(t, doc).Ok?
    ensures Verified(Reconcile(t, doc).value, t.wordForm, doc) <==> Classify(t, doc).value != Unverified
  {
    if Classify(t, doc).value == Collapsed {
      EqualsIgnoreCaseReflexive(Slice(t, doc));
    }
  }

  // ---------------------------------------------------------------------------
  // Examples
  // ---------------------------------------------------------------------------

  /** A stripped opening quote: the tokenizer reports "Hello" one character
      early, and the shift repairs it. */
  lemma ShiftRepairsStrippedQuote()
    ensures Reconcile(Token(0, 5, "Hello"), "“Hello") == Ok(TokenRecord(1, 6, "Hello"))
  {
    var t, doc := Token(0, 5, "Hello"), "“Hello";
    assert Slice(t, doc) == "“Hell";
    assert ShiftedSlice(t, doc) == "Hello";
    EqualsIgnoreCaseReflexive("Hello");
  }

  /** A line break after a hyphen inside the token: the whitespace-free
      slice matches, and the slice, line break included, becomes the text. */
  lemma CollapsedLineWrap()
    ensures Reconcile(Token(0, 6, "co-op"), "co-\nop.") == Ok(TokenRecord(0, 6, "co-\nop"))
  {
    var t, doc := Token(0, 6, "co-op"), "co-\nop.";
    assert Slice(t, doc) == "co-\nop";
    assert !MatchesDirect(t, doc);
    assert !MatchesShifted(t, doc) by {
      assert |ShiftedSlice(t, doc)| == 6;
    }
    assert MatchesCollapsed(t, doc) by {
      assert RemoveWhitespace("co-\nop") == "co-op";
      EqualsIgnoreCaseReflexive("co-op");
    }
  }

  /** The same token at the very end of the document: the shifted
      `substring` throws before the whitespace test is reached. */
  lemma LineWrapAtDocumentEndThrows()
    ensures Reconcile(Token(0, 6, "co-op"), "co-\nop") == Err(StringIndexOutOfBounds(1, 7, 6))
  {
  }
}
