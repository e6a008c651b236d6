/** The auto-detecting conversion entry point of internal/service/service.go.
    `Convert` trims its input, rejects an empty result, classifies the trimmed
    string as plain text (it holds a letter or a digit) or Morse code (it holds
    only '.', '-' and ' '), rejects anything else as ambiguous, and hands the
    trimmed string to the matching direction of the Morse codec. */
module Service {
  import opened GoStrings
  import opened GoUnicode
  import opened Morse

  /** The two errors `Convert` can return. In Go they are plain error values with
      the texts "input is empty" and "input is ambiguous: not plain text or valid
      Morse code"; only which of the two occurs is modelled. */
  datatype ConvertError = EmptyInput | Ambiguous

  /** Go's `(string, error)` result: the converted string with a nil error, or an
      error (beside which Go returns the empty string). */
  datatype Outcome = Ok(value: string) | Err(error: ConvertError)

  /** The predicate handed to `strings.ContainsFunc`: a letter or a digit. */
  predicate IsTextRune(u: Classes, r: char)
  {
    u.isLetter(r) || u.isDigit(r)
  }

  /** The three runes the scan accepts in Morse input; note that ' ' is the only
      white space among them. */
  predicate IsMorseRune(r: char)
  {
    r == '.' || r == '-' || r == ' '
  }

  /** Reference definition of "plain text": some rune is a letter or a digit. */
  predicate HasTextRune(u: Classes, t: string)
  {
    exists k :: 0 <= k < |t| && IsTextRune(u, t[k])
  }

  /** Reference definition of "valid Morse alphabet": every rune is '.', '-' or ' '. */
  predicate OnlyMorseRunes(t: string)
  {
    forall k :: 0 <= k < |t| ==> IsMorseRune(t[k])
  }

  /** The scan over the runes of the trimmed input: it stops with failure at the
      first rune that is not a Morse rune, and succeeds if there is none. */
  function ScanMorse(t: string): (ok: bool)
    ensures ok <==> OnlyMorseRunes(t)
  {
    if t == [] then true
    else if !IsMorseRune(t[0]) then false
    else
      var rest := ScanMorse(t[1..]);
      assert forall k :: 1 <= k < |t| ==> t[k] == t[1..][k - 1];
      rest
  }

  /** `Convert(input)`. Exactly one of four outcomes, decided in this order of
      precedence on the trimmed input `t`: the empty-input error when `input` is
      all white space; otherwise `ToMorse(t)` when `t` holds a letter or a digit,
      whatever else it holds; otherwise the ambiguity error when `t` holds a
      rune other than '.', '-' and ' '; otherwise `ToText(t)`. Conversion itself
      never fails. */
  function Convert(u: Classes, codec: Codec, input: string): (r: Outcome)
    ensures r == Err(EmptyInput) <==> AllSpace(u.isSpace, input)
    ensures var t := TrimSpace(u.isSpace, input);
            HasTextRune(u, t) ==> r == Ok(codec.toMorse(t))
    ensures var t := TrimSpace(u.isSpace, input);
            r == Err(Ambiguous) <==> t != [] && !HasTextRune(u, t) && !OnlyMorseRunes(t)
    ensures var t := TrimSpace(u.isSpace, input);
            t != [] && !HasTextRune(u, t) && OnlyMorseRunes(t) ==> r == Ok(codec.toText(t))
  {
    var trimmed := TrimSpace(u.isSpace, input);
    if trimmed == [] then Err(EmptyInput)
    else
      var isText := ContainsFunc(trimmed, r => IsTextRune(u, r));
      if !isText && !ScanMorse(trimmed) then Err(Ambiguous)
      else if isText then Ok(codec.toMorse(trimmed))
      else Ok(codec.toText(trimmed))
  }

  /** Surrounding white space is irrelevant: `Convert` gives the same outcome on
      the input, on its trimmed form, and on the input padded with white space. */
  lemma ConvertIgnoresSurroundingSpace(u: Classes, codec: Codec, p: string, s: string, q: string)
    requires AllSpace(u.isSpace, p) && AllSpace(u.isSpace, q)
    ensures Convert(u, codec, TrimSpace(u.isSpace, s)) == Convert(u, codec, s)
    ensures Convert(u, codec, p + s + q) == Convert(u, codec, s)
  {
    TrimSpaceIdempotent(u.isSpace, s);
    TrimSpacePadding(u.isSpace, p, s, q);
  }

  /** Only the literal space is accepted inside Morse input: a white-space rune
      `c` other than ' ' (a tab or a newline, say) inside otherwise valid Morse
      input makes the input ambiguous. `a` and `b` are any Morse text ('.', '-'
      and ' ') that does not start, respectively end, with a space. */
  lemma InteriorWhitespaceAmbiguous(u: Classes, codec: Codec, a: string, c: char, b: string)
    requires GoFacts(u)
    requires a != [] && b != [] && OnlyMorseRunes(a) && OnlyMorseRunes(b)
    requires a[0] != ' ' && b[|b| - 1] != ' '
    requires u.isSpace(c) && c != ' ' && !IsTextRune(u, c)
    ensures Convert(u, codec, a + [c] + b) == Err(Ambiguous)
  {
    var m := a + [c] + b;
    assert TrimSpace(u.isSpace, m) == m by {
      assert m[0] == a[0] && m[|m| - 1] == b[|b| - 1];
      TrimPadded(u.isSpace, [], m, []);
      assert [] + m + [] == m;
    }
    assert !HasTextRune(u, m) by {
      forall k | 0 <= k < |m| ensures !IsTextRune(u, m[k]) {
        if k < |a| { assert m[k] == a[k]; }
        else if k > |a| { assert m[k] == b[k - |a| - 1]; }
      }
    }
    assert !OnlyMorseRunes(m) by {
      assert m[|a|] == c;
    }
  }

  /** White space of any kind around Morse input is trimmed away, and the
      input decodes: `m` is any Morse text that does not start or end with a
      space, `p` and `q` any white space. */
  lemma OuterWhitespaceTrimmed(u: Classes, codec: Codec, p: string, m: string, q: string)
    requires GoFacts(u)
    requires AllSpace(u.isSpace, p) && AllSpace(u.isSpace, q)
    requires m != [] && OnlyMorseRunes(m) && m[0] != ' ' && m[|m| - 1] != ' '
    ensures Convert(u, codec, p + m + q) == Ok(codec.toText(m))
  {
    TrimPadded(u.isSpace, p, m, q);
    assert !HasTextRune(u, m) by {
      forall k | 0 <= k < |m| ensures !IsTextRune(u, m[k]) {
        assert IsMorseRune(m[k]);
      }
    }
  }

  /** Only classification can fail: whether `Convert` returns an error, and which,
      does not depend on what the codec returns. */
  lemma ErrorsIndependentOfCodec(u: Classes, c1: Codec, c2: Codec, input: string)
    ensures Convert(u, c1, input).Err? <==> Convert(u, c2, input).Err?
    ensures Convert(u, c1, input).Err? ==> Convert(u, c1, input) == Convert(u, c2, input)
  {
  }

  /** An empty converted string is returned as a success, not rejected: when
      classification succeeds and the direction taken returns "", so does
      `Convert`, with no error. */
  lemma EmptyConversionIsSuccess(u: Classes, codec: Codec, input: string)
    requires var t := TrimSpace(u.isSpace, input);
             t != [] && (HasTextRune(u, t) || OnlyMorseRunes(t))
    requires var t := TrimSpace(u.isSpace, input);
             if HasTextRune(u, t) then codec.toMorse(t) == [] else codec.toText(t) == []
    ensures Convert(u, codec, input) == Ok([])
  {
  }

  /** Empty and blank input are rejected as empty. */
  lemma ExampleEmpty(u: Classes, codec: Codec)
    requires GoFacts(u)
    ensures Convert(u, codec, "") == Err(EmptyInput)
    ensures Convert(u, codec, " \t\n") == Err(EmptyInput)
  {
    assert AllSpace(u.isSpace, " \t\n");
  }

  /** Text, and text mixed with dots, goes to the encoder. */
  lemma ExampleText(u: Classes, codec: Codec)
    requires GoFacts(u)
    requires u.isLetter('S') && !u.isSpace('S')
    ensures Convert(u, codec, "SOS") == Ok(codec.toMorse("SOS"))
    ensures Convert(u, codec, "SOS ...") == Ok(codec.toMorse("SOS ..."))
  {
    assert Convert(u, codec, "SOS") == Ok(codec.toMorse("SOS")) by {
      TrimPadded(u.isSpace, [], "SOS", []);
      assert [] + "SOS" + [] == "SOS";
      assert IsTextRune(u, "SOS"[0]);
    }
    TrimPadded(u.isSpace, [], "SOS ...", []);
    assert [] + "SOS ..." + [] == "SOS ...";
    assert IsTextRune(u, "SOS ..."[0]);
  }

  /** Dots, dashes and spaces, padded with newlines, go to the decoder. */
  lemma ExampleMorse(u: Classes, codec: Codec)
    requires GoFacts(u)
    ensures Convert(u, codec, "\n... --- ...\n") == Ok(codec.toText("... --- ..."))
  {
    var m := "... --- ...";
    TrimPadded(u.isSpace, "\n", m, "\n");
    assert "\n... --- ...\n" == "\n" + m + "\n";
    assert OnlyMorseRunes(m);
    assert !HasTextRune(u, m);
  }

  /** Symbols that are neither text nor Morse are ambiguous. */
  lemma ExampleSymbols(u: Classes, codec: Codec)
    requires !IsTextRune(u, '#') && !IsTextRune(u, '$') && !IsTextRune(u, '%')
    requires !u.isSpace('#') && !u.isSpace('%')
    ensures Convert(u, codec, "#$%") == Err(Ambiguous)
  {
    var m := "#$%";
    TrimPadded(u.isSpace, [], m, []);
    assert [] + m + [] == m;
    assert !HasTextRune(u, m);
    assert !IsMorseRune(m[0]);
  }
}
