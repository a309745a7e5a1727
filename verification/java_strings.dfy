/** The parts of java.lang.String, java.lang.Character, java.util.regex and
    Apache Commons' StringUtils that the tokenizer relies on, stated over
    Dafny strings (one `char` per index). */
module JavaStrings {

  /** The exception `String.substring(begin, end)` throws for indices outside the string. */
  datatype Exception = StringIndexOutOfBounds(begin: int, end: int, length: int)

  /** A value, or the exception that aborted its computation. */
  datatype Result<+T> = Ok(value: T) | Err(error: Exception) {
    predicate IsFailure() { Err? }

    function PropagateFailure<U>(): Result<U>
      requires Err?
    {
      Err(error)
    }

    function Extract(): T
      requires Ok?
    {
      value
    }
  }

  /** `s.substring(begin, end)`: the characters at indices begin .. end-1,
      or an exception unless 0 <= begin <= end <= |s|. */
  function Substring(s: string, begin: int, end: int): (r: Result<string>)
    ensures r.Ok? <==> 0 <= begin <= end <= |s|
    ensures r.Ok? ==> |r.value| == end - begin
    ensures r.Ok? ==> forall i :: 0 <= i < |r.value| ==> r.value[i] == s[begin + i]
    ensures r.Err? ==> r.error.begin == begin && r.error.end == end
  {
    if 0 <= begin <= end <= |s| then Ok(s[begin..end])
    else Err(StringIndexOutOfBounds(begin, end, |s|))
  }

  // ---------------------------------------------------------------------------
  // Case-insensitive comparison (ASCII letters only)
  // ---------------------------------------------------------------------------

  function ToUpperCase(c: char): char
  {
    if 'a' <= c <= 'z' then (c as int - 32) as char else c
  }

  function ToLowerCase(c: char): char
  {
    if 'A' <= c <= 'Z' then (c as int + 32) as char else c
  }

  /** One step of `String.regionMatches(true, ...)`: the characters are equal,
      or their upper cases are, or the lower cases of their upper cases are. */
  predicate CharEqualsIgnoreCase(c1: char, c2: char)
  {
    c1 == c2
    || ToUpperCase(c1) == ToUpperCase(c2)
    || ToLowerCase(ToUpperCase(c1)) == ToLowerCase(ToUpperCase(c2))
  }

  /** `a.equalsIgnoreCase(b)`: equal lengths, and the characters agree
      pairwise from the left under CharEqualsIgnoreCase. */
  predicate EqualsIgnoreCase(a: string, b: string)
  {
    |a| == |b| && (a == [] || (CharEqualsIgnoreCase(a[0], b[0]) && EqualsIgnoreCase(a[1..], b[1..])))
  }

  /** The per-character test amounts to comparing lower cases. */
  lemma CharEqualsIgnoreCaseIsFold(c1: char, c2: char)
    ensures CharEqualsIgnoreCase(c1, c2) <==> ToLowerCase(c1) == ToLowerCase(c2)
  {
  }

  /** equalsIgnoreCase compares the case-folded strings character by character. */
  lemma {:induction false} EqualsIgnoreCaseAt(a: string, b: string)
    ensures EqualsIgnoreCase(a, b) <==>
              |a| == |b| && forall i :: 0 <= i < |a| ==> ToLowerCase(a[i]) == ToLowerCase(b[i])
  {
    if a != [] && |a| == |b| {
      EqualsIgnoreCaseAt(a[1..], b[1..]);
      CharEqualsIgnoreCaseIsFold(a[0], b[0]);
      if forall i :: 0 <= i < |a| ==> ToLowerCase(a[i]) == ToLowerCase(b[i]) {
        assert forall i :: 0 <= i < |a| - 1 ==> ToLowerCase(a[1..][i]) == ToLowerCase(b[1..][i]) by {
          forall i | 0 <= i < |a| - 1 ensures ToLowerCase(a[1..][i]) == ToLowerCase(b[1..][i]) {
            assert a[1..][i] == a[i + 1] && b[1..][i] == b[i + 1];
          }
        }
      }
      if EqualsIgnoreCase(a, b) {
        forall i | 0 <= i < |a| ensures ToLowerCase(a[i]) == ToLowerCase(b[i]) {
          if i > 0 {
            assert a[1..][i - 1] == a[i] && b[1..][i - 1] == b[i];
          }
        }
      }
    }
  }

  /** Every string equals itself ignoring case (the `this == anotherString` short cut). */
  lemma {:induction false} EqualsIgnoreCaseReflexive(a: string)
    ensures EqualsIgnoreCase(a, a)
  {
    EqualsIgnoreCaseAt(a, a);
  }

  // ---------------------------------------------------------------------------
  // Whitespace
  // ---------------------------------------------------------------------------

  /** The predefined regular-expression class `\s`: [ \t\n\x0B\f\r]. */
  predicate IsRegexSpace(c: char)
  {
    c == ' ' || c == '\t' || c == '\n' || c == '\U{B}' || c == '\U{C}' || c == '\r'
  }

  /** `s.replaceAll("\\s", "")`: s with every `\s` character removed. */
  function RemoveWhitespace(s: string): (r: string)
    ensures |r| <= |s|
    ensures forall i :: 0 <= i < |r| ==> !IsRegexSpace(r[i])
  {
    if s == [] then []
    else if IsRegexSpace(s[0]) then RemoveWhitespace(s[1..])
    else [s[0]] + RemoveWhitespace(s[1..])
  }

  /** Exactly the characters of s that are not `\s` survive; a single
      character is kept exactly when it is not `\s`. */
  lemma {:induction false} RemoveWhitespaceKeeps(s: string)
    ensures forall c :: c in RemoveWhitespace(s) <==> c in s && !IsRegexSpace(c)
    ensures |s| == 1 ==> RemoveWhitespace(s) == (if IsRegexSpace(s[0]) then [] else s)
  {
    if s != [] {
      RemoveWhitespaceKeeps(s[1..]);
      assert s == [s[0]] + s[1..];
      if |s| == 1 {
        assert s[1..] == [];
      }
    }
  }

  /** Removing whitespace from a concatenation removes it from each part, so
      the remaining characters keep their order. */
  lemma {:induction false} RemoveWhitespaceAppend(a: string, b: string)
    ensures RemoveWhitespace(a + b) == RemoveWhitespace(a) + RemoveWhitespace(b)
  {
    if a == [] {
      assert a + b == b;
    } else {
      assert (a + b)[0] == a[0] && (a + b)[1..] == a[1..] + b;
      RemoveWhitespaceAppend(a[1..], b);
      if !IsRegexSpace(a[0]) {
        calc {
          RemoveWhitespace(a + b);
          [a[0]] + RemoveWhitespace(a[1..] + b);
          [a[0]] + (RemoveWhitespace(a[1..]) + RemoveWhitespace(b));
          ([a[0]] + RemoveWhitespace(a[1..])) + RemoveWhitespace(b);
        }
      }
    }
  }

  predicate HasRegexSpace(s: string)
  {
    exists i :: 0 <= i < |s| && IsRegexSpace(s[i])
  }

  /** Removing whitespace leaves s unchanged exactly when s has none, and
      otherwise makes it strictly shorter. */
  lemma {:induction false} RemoveWhitespaceFixedPoint(s: string)
    ensures RemoveWhitespace(s) == s <==> !HasRegexSpace(s)
    ensures HasRegexSpace(s) ==> |RemoveWhitespace(s)| < |s|
  {
    if s != [] {
      RemoveWhitespaceFixedPoint(s[1..]);
      if HasRegexSpace(s[1..]) {
        var i :| 0 <= i < |s[1..]| && IsRegexSpace(s[1..][i]);
        assert IsRegexSpace(s[i + 1]);
      }
      if HasRegexSpace(s) && !IsRegexSpace(s[0]) {
        var i :| 0 <= i < |s| && IsRegexSpace(s[i]);
        assert i > 0 && IsRegexSpace(s[1..][i - 1]);
      }
      if !HasRegexSpace(s) {
        assert !IsRegexSpace(s[0]);
        assert forall i :: 0 <= i < |s[1..]| ==> s[1..][i] == s[i + 1];
      }
    }
  }

  /** `Character.isWhitespace`: the ASCII controls \t \n \x0B \f \r and
      \x1C-\x1F, and the Unicode space, line and paragraph separators other
      than the non-breaking ones (U+00A0, U+2007, U+202F). */
  predicate IsWhitespace(c: char)
  {
    '\t' <= c <= '\r' || '\U{1C}' <= c <= '\U{1F}' || c == ' '
    || c == '\U{1680}' || '\U{2000}' <= c <= '\U{2006}' || '\U{2008}' <= c <= '\U{200A}'
    || c == '\U{2028}' || c == '\U{2029}' || c == '\U{205F}' || c == '\U{3000}'
  }

  /** `StringUtils.isNotBlank(s)`: s has a character that is not whitespace. */
  predicate IsNotBlank(s: string)
  {
    exists i :: 0 <= i < |s| && !IsWhitespace(s[i])
  }
}
