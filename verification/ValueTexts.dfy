/** Which texts are integer and boolean values, and what they mean (src/config/common.c). */
module ValueTexts {
  import opened Prelude
  import opened ConfigStore

  /** What strtol skips in front. */
  predicate IsSpace(c: char) {
    c == ' ' || c == '\t' || c == '\n' || c == '\U{0B}' || c == '\U{0C}' || c == '\r'
  }

  function Zeros(k: nat): (s: string)
    ensures |s| == k
  {
    if k == 0 then "" else Zeros(k - 1) + ['0']
  }

  function Magnitude(n: int): nat {
    if n < 0 then -n else n
  }

  predicate IsSign(sign: string, n: int) {
    (sign == "-" && n <= 0) || ((sign == "+" || sign == "") && n >= 0)
  }

  /** Blanks, a sign, leading zeros, and the number in decimal. */
  ghost predicate IsNumeral(text: string, n: int, blanks: string, sign: string, zeros: nat) {
    && (forall i :: 0 <= i < |blanks| ==> IsSpace(blanks[i])) && IsSign(sign, n)
    && text == blanks + (sign + (Zeros(zeros) + Decimal(Magnitude(n))))
  }

  ghost predicate Denotes(text: string, n: int) {
    exists blanks, sign, zeros: nat :: IsNumeral(text, n, blanks, sign, zeros)
  }

  lemma {:induction false} ZerosAreZero(k: nat)
    ensures AllDigits(Zeros(k)) && DigitsValue(Zeros(k)) == 0
  {
    hide Zeros, DigitsValue;
    if k > 0 {
      ZerosAreZero(k - 1);
      ZerosSnoc(k - 1);
      DigitsSnoc(Zeros(k - 1), '0');
    } else {
      ZerosSnoc(0);
      OneDigit('0');
    }
  }

  lemma DigitsSnoc(d: string, c: char)
    requires AllDigits(d) && '0' <= c <= '9'
    ensures AllDigits(d + [c]) && DigitsValue(d + [c]) == 10 * DigitsValue(d) + (c - '0') as nat
  {
    assert (d + [c])[..|d|] == d;
  }

  /** The value of a decimal, leading zeros or not. */
  lemma {:induction false} DecimalHasValue(k: nat, m: nat)
    ensures AllDigits(Zeros(k) + Decimal(m)) && DigitsValue(Zeros(k) + Decimal(m)) == m
    decreases m
  {
    if m < 10 {
      ZerosAreZero(k);
      DigitsSnoc(Zeros(k), Digit(m));
    } else {
      DecimalHasValue(k, m / 10);
      DigitsSnoc(Zeros(k) + Decimal(m / 10), Digit(m % 10));
      assert Zeros(k) + Decimal(m) == (Zeros(k) + Decimal(m / 10)) + [Digit(m % 10)];
    }
  }

  /** One digit more behind a decimal. */
  lemma OneMoreDigit(k: nat, v: nat, c: char) returns (k': nat)
    requires '0' <= c <= '9'
    ensures (Zeros(k) + Decimal(v)) + [c] == Zeros(k') + Decimal(10 * v + (c - '0') as nat)
  {
    hide Zeros;
    var d := (c - '0') as nat;
    assert c == Digit(d);
    if v == 0 {
      k' := k + 1;
      ZerosSnoc(k);
      assert Decimal(0) == ['0'] && Decimal(d) == [c];
    } else {
      k' := k;
      assert Decimal(10 * v + d) == Decimal(v) + [c];
    }
  }

  lemma ZerosSnoc(k: nat)
    ensures Zeros(k + 1) == Zeros(k) + ['0'] && Zeros(0) == ""
  {
  }

  /** Digits are the decimal of their value behind leading zeros. */
  lemma {:induction false} DigitsAreDecimal(d: string) returns (k: nat)
    requires d != "" && AllDigits(d)
    ensures d == Zeros(k) + Decimal(DigitsValue(d))
  {
    hide Zeros, Decimal, DigitsValue;
    var n := |d| - 1;
    assert d == d[..n] + [d[n]];
    DigitsSnoc(d[..n], d[n]);
    if n == 0 {
      k := 0;
      ZerosSnoc(0);
      assert d[..n] == "";
      OneDigit(d[n]);
    } else {
      var k' := DigitsAreDecimal(d[..n]);
      k := OneMoreDigit(k', DigitsValue(d[..n]), d[n]);
    }
  }

  lemma OneDigit(c: char)
    requires '0' <= c <= '9'
    ensures DigitsValue("") == 0 && Decimal((c - '0') as nat) == [c]
  {
  }

  lemma {:induction false} SpacesAreSkipped(blanks: string, t: string)
    requires forall i :: 0 <= i < |blanks| ==> IsSpace(blanks[i])
    requires t == "" || !IsSpace(t[0])
    ensures SkipSpaces(blanks + t) == t
  {
    if blanks == "" {
      assert blanks + t == t;
    } else {
      assert (blanks + t)[1..] == blanks[1..] + t;
      SpacesAreSkipped(blanks[1..], t);
    }
  }

  lemma {:induction false} SkippedAreSpaces(text: string) returns (blanks: string)
    ensures text == blanks + SkipSpaces(text) && forall i :: 0 <= i < |blanks| ==> IsSpace(blanks[i])
    ensures SkipSpaces(text) == "" || !IsSpace(SkipSpaces(text)[0])
  {
    SkipOne(text);
    hide IsSpace, SkipSpaces;
    if text != "" && IsSpace(text[0]) {
      var rest := SkippedAreSpaces(text[1..]);
      blanks := [text[0]] + rest;
      assert text == [text[0]] + text[1..];
    } else {
      blanks := "";
      assert text == blanks + text;
    }
  }

  lemma SkipOne(text: string)
    ensures SkipSpaces(text) == if text != "" && IsSpace(text[0]) then SkipSpaces(text[1..]) else text
  {
  }

  /** A sign in front of digits is told from the digits. */
  lemma SignIsFound(sign: string, digits: string, n: int)
    requires IsSign(sign, n) && digits != "" && AllDigits(digits)
    ensures var t := sign + digits;
      && t != "" && !IsSpace(t[0])
      && (if t[0] == '-' || t[0] == '+' then t[1..] else t) == digits
      && (t[0] == '-' <==> sign == "-")
  {
    assert sign == "" ==> sign + digits == digits;
    assert sign != "" ==> (sign + digits)[1..] == digits;
  }

  lemma NumeralIsRead(text: string, n: int, blanks: string, sign: string, zeros: nat)
    requires IsNumeral(text, n, blanks, sign, zeros)
    ensures ReadLong(text) == if LONG_MIN <= n <= LONG_MAX then Some(n) else None
  {
    hide SkipSpaces, DigitsValue, Zeros, Decimal, IsSpace;
    var digits := Zeros(zeros) + Decimal(Magnitude(n));
    DecimalHasValue(zeros, Magnitude(n));
    DecimalIsNotEmpty(Magnitude(n));
    SignIsFound(sign, digits, n);
    SpacesAreSkipped(blanks, sign + digits);
  }

  lemma DecimalIsNotEmpty(m: nat)
    ensures Decimal(m) != ""
  {
  }

  /**
    A text is read as n exactly if it is the empty text and n is zero, or if it is blanks, a sign, leading zeros and
    the decimal of n, to its very end, and n is within a long.
   */
  lemma ReadLongExactly(text: string, n: int)
    ensures ReadLong(text) == Some(n) <==> (text == "" && n == 0) || (LONG_MIN <= n <= LONG_MAX && Denotes(text, n))
  {
    hide SkipSpaces, DigitsValue, Zeros, Decimal, IsSpace, IsNumeral;
    if Denotes(text, n) {
      var blanks, sign, zeros: nat :| IsNumeral(text, n, blanks, sign, zeros);
      NumeralIsRead(text, n, blanks, sign, zeros);
      NumeralIsNotEmpty(text, n, blanks, sign, zeros);
    }
    if text != "" && ReadLong(text) == Some(n) {
      var blanks := SkippedAreSpaces(text);
      var t := SkipSpaces(text);
      var sign := if t[0] == '-' || t[0] == '+' then t[..1] else "";
      var digits := if t[0] == '-' || t[0] == '+' then t[1..] else t;
      assert t == sign + digits;
      var k := DigitsAreDecimal(digits);
      NumeralFrom(text, n, blanks, sign, digits, k);
    }
  }

  lemma NumeralIsNotEmpty(text: string, n: int, blanks: string, sign: string, zeros: nat)
    requires IsNumeral(text, n, blanks, sign, zeros)
    ensures text != ""
  {
    DecimalIsNotEmpty(Magnitude(n));
  }

  lemma NumeralFrom(text: string, n: int, blanks: string, sign: string, digits: string, zeros: nat)
    requires text == blanks + (sign + digits) && (forall i :: 0 <= i < |blanks| ==> IsSpace(blanks[i])) && IsSign(sign, n)
    requires digits == Zeros(zeros) + Decimal(Magnitude(n))
    ensures IsNumeral(text, n, blanks, sign, zeros)
  {
  }

  /** The text of a number, as it is usually written. */
  function Printed(n: int): string {
    (if n < 0 then "-" else "") + Decimal(Magnitude(n))
  }

  lemma PrintedIsRead(n: int)
    ensures ReadLong(Printed(n)) == if LONG_MIN <= n <= LONG_MAX then Some(n) else None
  {
    var sign := if n < 0 then "-" else "";
    assert Printed(n) == "" + (sign + (Zeros(0) + Decimal(Magnitude(n))));
    NumeralIsRead(Printed(n), n, "", sign, 0);
  }

  lemma Eighty()
    ensures ReadLong("80") == Some(80) && ReadLong("-80") == Some(-80)
  {
    hide ReadLong;
    EightyIsPrinted();
    PrintedIsRead(80);
    PrintedIsRead(-80);
  }

  lemma EightyIsPrinted()
    ensures Printed(80) == "80" && Printed(-80) == "-80"
  {
    assert Decimal(80) == "80";
  }

  /** Nothing may follow the digits. */
  lemma TrailingIsRejected()
    ensures ReadLong("80x") == None
  {
    assert SkipSpaces("80x") == "80x";
    assert "80x"[2] == 'x' && !AllDigits("80x");
  }

  /** An integer option takes the text of a number exactly if the number is in its range, and stores that number. */
  lemma NumberIsStored(o: ConfigOption, n: int)
    requires o.Sound() && o.kind.ParamInt? && LONG_MIN <= n <= LONG_MAX
    ensures o.Readable(Printed(n)) <==> o.valueMin <= n <= o.valueMax
    ensures o.AddText(Printed(n)).values ==
      if o.valueMin <= n <= o.valueMax && (o.multivalued != 0 || o.values == []) then o.values + [IntValue(n)] else o.values
  {
    hide ReadLong;
    PrintedIsRead(n);
  }

  // ----------------------------------------------------------------------------------------------
  // Booleans
  // ----------------------------------------------------------------------------------------------

  /** One alternative of the boolean expression: a word, and whether it is anchored at the start or the end. */
  datatype Alternative = Alternative(word: string, atStart: bool, atEnd: bool) {
    /** It is found at position i of the text. */
    predicate FoundAt(text: string, i: nat) {
      && i + |word| <= |text| && text[i..i + |word|] == word
      && (atStart ==> i == 0) && (atEnd ==> i + |word| == |text|)
    }
  }

  /** The expression: alternation binds weaker than the anchors. */
  ghost predicate IsAlternative(a: Alternative) {
    || a == Alternative("yes", true, false)
    || (a.word in INNER_WORDS && !a.atStart && !a.atEnd)
    || a == Alternative("0", false, true)
  }

  lemma {:induction false} ContainsExactly(text: string, part: string)
    ensures Contains(text, part) <==> exists i :: 0 <= i && Alternative(part, false, false).FoundAt(text, i)
    decreases |text|
  {
    var a := Alternative(part, false, false);
    if part <= text {
      assert a.FoundAt(text, 0);
    } else if text != "" {
      ContainsExactly(text[1..], part);
      if i :| 0 <= i && a.FoundAt(text[1..], i) {
        assert text[1..][i..i + |part|] == text[i + 1..i + 1 + |part|];
        assert a.FoundAt(text, i + 1);
      }
      if i :| 0 <= i && a.FoundAt(text, i) {
        assert i > 0;
        assert text[1..][i - 1..i - 1 + |part|] == text[i..i + |part|];
        assert a.FoundAt(text[1..], i - 1);
      }
    }
  }

  /** A text is a boolean exactly if some alternative of the expression is found somewhere in it. */
  lemma BoolTextExactly(text: string)
    ensures BoolText(text) <==> exists a: Alternative, i :: 0 <= i && IsAlternative(a) && a.FoundAt(text, i)
  {
    hide Contains;
    if BoolText(text) {
      if "yes" <= text {
        assert Alternative("yes", true, false).FoundAt(text, 0);
      } else if w :| w in INNER_WORDS && Contains(text, w) {
        ContainsExactly(text, w);
        var i :| 0 <= i && Alternative(w, false, false).FoundAt(text, i);
        assert IsAlternative(Alternative(w, false, false));
      } else {
        assert text[|text| - 1..] == "0";
        assert Alternative("0", false, true).FoundAt(text, |text| - 1);
      }
    }
    if a: Alternative, i :| 0 <= i && IsAlternative(a) && a.FoundAt(text, i) {
      FoundIsBool(text, a, i);
    }
  }

  lemma FoundIsBool(text: string, a: Alternative, i: nat)
    requires IsAlternative(a) && a.FoundAt(text, i)
    ensures BoolText(text)
  {
    hide Contains;
    if a.word in INNER_WORDS && !a.atStart && !a.atEnd {
      ContainsExactly(text, a.word);
      assert Contains(text, a.word);
    } else if a.atEnd {
      assert text[i..i + 1] == "0";
      assert text[|text| - 1] == '0';
    }
  }

  /** Anchored as it is, the expression takes more than its words. */
  lemma NotesAreBooleans()
    ensures BoolText("notes") && BoolText("yesterday") && BoolText("10") && !BoolText("")
  {
    assert "no" <= "notes" && "no" in INNER_WORDS && Contains("notes", "no");
    assert "yes" <= "yesterday";
    assert "10"[1] == '0';
    assert forall w :: w in INNER_WORDS ==> w != "";
    assert forall w :: w in INNER_WORDS ==> !Contains("", w);
  }
}
