/** The other direction: whatever the scanner takes for an object is a JSON object, read back part by part. */
module JsonScan {
  import opened Prelude
  import opened JsonObject
  import opened JsonTree

  /** From this state at this position the scanner ends at `n`. */
  predicate Reaches(s: State, b: string, pos: nat, n: nat) { pos <= |b| && Scan(s, b, pos) == Some(n) }

  lemma OneOn(s: State, b: string, pos: nat, n: nat)
    requires Reaches(s, b, pos, n) && !s.mode.Finished?
    ensures pos < |b| && !s.mode.Failed? && Reaches(Step(s, b[pos]), b, pos + 1, n) && !Step(s, b[pos]).mode.Failed?
  {
  }

  /** Two states that do the same with the next character end in the same place. */
  lemma SameOn(s: State, t: State, b: string, pos: nat, n: nat)
    requires Reaches(s, b, pos, n) && !s.mode.Finished? && !t.mode.Finished? && !t.mode.Failed?
    requires pos < |b| ==> Step(s, b[pos]) == Step(t, b[pos])
    ensures Reaches(t, b, pos, n)
  {
    OneOn(s, b, pos, n);
  }

  lemma Longer(b: string, from: nat, mid: nat, to: nat)
    requires from <= mid <= to <= |b|
    ensures b[from..to] == b[from..mid] + b[mid..to]
  {
  }

  lemma Regroup(a: string, x: string, y: string, z: string)
    ensures a + (x + (y + z)) == a + x + y + z == a + x + (y + z)
  {
  }

  lemma Wrapped(x: string, y: string, z: string)
    ensures x + (y + z) == x + y + z
  {
  }

  lemma Bracketed(b: string, pos: nat, mid: nat, start: string)
    requires pos <= mid < |b|
    ensures start + b[pos..mid + 1] == start + b[pos..mid] + [b[mid]]
  {
    Longer(b, pos, mid, mid + 1);
  }

  // ---- Blanks, strings, names -----------------------------------------------

  lemma {:induction false} TakeBlanks(s: State, b: string, pos: nat, n: nat) returns (q: nat)
    requires Reaches(s, b, pos, n) && SkipsBlanks(s.mode)
    ensures pos <= q < |b| && Blanks(b[pos..q]) && !IsBlank(b[q]) && Reaches(s, b, q, n)
    decreases |b| - pos
  {
    OneOn(s, b, pos, n);
    if IsBlank(b[pos]) {
      q := TakeBlanks(s, b, pos + 1, n);
      Longer(b, pos, pos + 1, q);
    } else {
      q := pos;
    }
  }

  lemma TakeEscape(s: State, key: bool, b: string, pos: nat, n: nat) returns (q: nat)
    requires Reaches(s, b, pos, n) && s.mode == JsonObject.Text(key) && pos < |b| && b[pos] == '\\'
    ensures pos < q <= |b| && Reaches(s, b, q, n)
    ensures forall rest :: IsBody(rest) ==> IsBody(b[pos..q] + rest)
  {
    OneOn(s, b, pos, n);
    var s1 := To(s, Escape(key));
    OneOn(s1, b, pos + 1, n);
    assert To(s, JsonObject.Text(key)) == s;
    if b[pos + 1] != 'u' {
      q := pos + 2;
      forall rest | IsBody(rest) ensures IsBody(b[pos..q] + rest) { assert (b[pos..q] + rest)[2..] == rest; }
    } else {
      OneOn(To(s, Hex(key, 4)), b, pos + 2, n);
      OneOn(To(s, Hex(key, 3)), b, pos + 3, n);
      OneOn(To(s, Hex(key, 2)), b, pos + 4, n);
      OneOn(To(s, Hex(key, 1)), b, pos + 5, n);
      q := pos + 6;
      forall rest | IsBody(rest) ensures IsBody(b[pos..q] + rest) { assert (b[pos..q] + rest)[6..] == rest; }
    }
  }

  lemma {:induction false} TakeBody(s: State, key: bool, b: string, pos: nat, n: nat) returns (q: nat)
    requires Reaches(s, b, pos, n) && s.mode == JsonObject.Text(key)
    ensures pos < q <= |b| && b[q-1] == '"' && IsBody(b[pos..q-1]) && Reaches(To(s, if key then Colon else AfterValue), b, q, n)
    decreases |b| - pos
  {
    OneOn(s, b, pos, n);
    if b[pos] == '"' {
      q := pos + 1;
      assert b[pos..q-1] == "";
    } else if b[pos] == '\\' {
      var next := TakeEscape(s, key, b, pos, n);
      q := TakeBody(s, key, b, next, n);
      Longer(b, pos, next, q - 1);
    } else {
      q := TakeBody(s, key, b, pos + 1, n);
      assert b[pos..q-1][1..] == b[pos+1..q-1];
    }
  }

  lemma {:induction false} TakeWord(s: State, b: string, pos: nat, n: nat) returns (q: nat)
    requires Reaches(s, b, pos, n) && s.mode.Word? && s.mode.rest != ""
    ensures pos < q <= |b| && b[pos..q] == s.mode.rest && Reaches(To(s, AfterValue), b, q, n)
    decreases |s.mode.rest|
  {
    OneOn(s, b, pos, n);
    var rest := s.mode.rest;
    if |rest| == 1 {
      q := pos + 1;
    } else {
      q := TakeWord(To(s, Word(rest[1..])), b, pos + 1, n);
      Longer(b, pos, pos + 1, q);
    }
  }

  // ---- Numbers ---------------------------------------------------------------

  predicate Complete(d: Digits) { d.Zero? || d.Whole? || d.Fraction? || d.Power? }

  /** A number that no further character belongs to is a value. */
  lemma NumberEnds(s: State, d: Digits, b: string, pos: nat, n: nat)
    requires Reaches(s, b, pos, n) && s.mode == JsonObject.Number(d) && Complete(d)
    requires pos < |b| ==> NextDigits(d, b[pos]).None?
    ensures Reaches(To(s, AfterValue), b, pos, n)
  {
    OneOn(s, b, pos, n);
    SameOn(s, To(s, AfterValue), b, pos, n);
  }

  lemma {:induction false} TakeDigits(s: State, d: Digits, b: string, pos: nat, n: nat) returns (q: nat)
    requires Reaches(s, b, pos, n) && s.mode == JsonObject.Number(d) && (d.Whole? || d.Fraction? || d.Power?)
    ensures pos <= q < |b| && AllDigits(b[pos..q]) && !IsDigit(b[q]) && Reaches(s, b, q, n)
    decreases |b| - pos
  {
    OneOn(s, b, pos, n);
    if IsDigit(b[pos]) {
      assert Step(s, b[pos]) == s;
      q := TakeDigits(s, d, b, pos + 1, n);
      Longer(b, pos, pos + 1, q);
    } else {
      q := pos;
    }
  }

  lemma TakeSign(s: State, b: string, pos: nat, n: nat) returns (from: nat)
    requires Reaches(s, b, pos, n) && s.mode == JsonObject.Number(Exponent)
    ensures pos <= from < |b| && IsDigit(b[from]) && (b[pos..from] == "" || b[pos..from] == "+" || b[pos..from] == "-")
    ensures Reaches(To(s, JsonObject.Number(Power)), b, from + 1, n)
  {
    OneOn(s, b, pos, n);
    from := pos;
    if b[pos] == '+' || b[pos] == '-' {
      from := pos + 1;
      OneOn(To(s, JsonObject.Number(ExponentSign)), b, from, n);
    }
  }

  lemma ExponentText(b: string, pos: nat, from: nat, q: nat)
    requires pos < from < q <= |b|
    ensures b[pos..q] == [b[pos]] + b[pos + 1..from] + b[from..q]
  {
  }

  /** The exponent, if there is one, and the end of the number. */
  lemma TakeExponent(s: State, d: Digits, b: string, pos: nat, n: nat) returns (mark: char, sign: string, exponent: string, q: nat)
    requires Reaches(s, b, pos, n) && s.mode == JsonObject.Number(d) && (d.Zero? || d.Whole? || d.Fraction?)
    requires pos < |b| && (!d.Zero? ==> !IsDigit(b[pos])) && (!d.Fraction? ==> b[pos] != '.')
    ensures pos <= q <= |b| && (mark == 'e' || mark == 'E') && AllDigits(exponent) && (sign == "" || sign == "+" || sign == "-")
    ensures exponent == "" ==> sign == ""
    ensures b[pos..q] == if exponent == "" then "" else [mark] + sign + exponent
    ensures Reaches(To(s, AfterValue), b, q, n)
  {
    if b[pos] != 'e' && b[pos] != 'E' {
      NumberEnds(s, d, b, pos, n);
      return 'e', "", "", pos;
    }
    mark := b[pos];
    OneOn(s, b, pos, n);
    var done := To(s, JsonObject.Number(Power));
    var from := TakeSign(To(s, JsonObject.Number(Exponent)), b, pos + 1, n);
    q := TakeDigits(done, Power, b, from + 1, n);
    sign, exponent := b[pos + 1..from], b[from..q];
    assert AllDigits(exponent) by { Longer(b, from, from + 1, q); }
    assert Reaches(To(s, AfterValue), b, q, n) by { NumberEnds(done, Power, b, q, n); }
    ExponentText(b, pos, from, q);
  }

  lemma TakeFraction(s: State, d: Digits, b: string, pos: nat, n: nat) returns (q: nat)
    requires Reaches(s, b, pos, n) && s.mode == JsonObject.Number(d) && (d.Zero? || d.Whole?) && pos < |b| && b[pos] == '.'
    ensures pos + 1 < q < |b| && AllDigits(b[pos + 1..q]) && b[pos..q] == "." + b[pos + 1..q] && !IsDigit(b[q])
    ensures Reaches(To(s, JsonObject.Number(Fraction)), b, q, n)
  {
    OneOn(s, b, pos, n);
    OneOn(To(s, JsonObject.Number(Point)), b, pos + 1, n);
    q := TakeDigits(To(s, JsonObject.Number(Fraction)), Fraction, b, pos + 2, n);
    assert AllDigits(b[pos + 1..q]) by { Longer(b, pos + 1, pos + 2, q); }
  }

  /** Fraction and exponent. */
  lemma TakeRest(s: State, d: Digits, b: string, pos: nat, n: nat)
    returns (fraction: string, mark: char, sign: string, exponent: string, q: nat)
    requires Reaches(s, b, pos, n) && s.mode == JsonObject.Number(d) && (d.Zero? || d.Whole?)
    requires pos < |b| && (d.Whole? ==> !IsDigit(b[pos]))
    ensures pos <= q <= |b| && (mark == 'e' || mark == 'E') && AllDigits(fraction) && AllDigits(exponent)
    ensures (sign == "" || sign == "+" || sign == "-") && (exponent == "" ==> sign == "")
    ensures b[pos..q] == (if fraction == "" then "" else "." + fraction) + (if exponent == "" then "" else [mark] + sign + exponent)
    ensures Reaches(To(s, AfterValue), b, q, n)
  {
    if b[pos] != '.' {
      fraction := "";
      mark, sign, exponent, q := TakeExponent(s, d, b, pos, n);
    } else {
      var mid := TakeFraction(s, d, b, pos, n);
      fraction := b[pos + 1..mid];
      mark, sign, exponent, q := TakeExponent(To(s, JsonObject.Number(Fraction)), Fraction, b, mid, n);
      assert b[pos..q] == b[pos..mid] + b[mid..q] by { Longer(b, pos, mid, q); }
    }
  }

  /** The digits before the point. */
  lemma TakeWhole(s: State, b: string, pos: nat, n: nat) returns (d: Digits, q: nat)
    requires Reaches(s, b, pos, n) && pos < |b| && IsDigit(b[pos])
    requires Starts(s) || s.mode == JsonObject.Number(Minus)
    ensures pos < q < |b| && (d.Zero? || d.Whole?) && (d.Whole? ==> !IsDigit(b[q])) && AllDigits(b[pos..q])
    ensures b[pos..q] == "0" || b[pos] != '0'
    ensures Reaches(To(s, JsonObject.Number(d)), b, q, n)
  {
    OneOn(s, b, pos, n);
    if b[pos] == '0' {
      d, q := Zero, pos + 1;
      OneOn(To(s, JsonObject.Number(Zero)), b, q, n);
    } else {
      d := Whole;
      q := TakeDigits(To(s, JsonObject.Number(Whole)), Whole, b, pos + 1, n);
      Longer(b, pos, pos + 1, q);
    }
  }

  lemma NumeralText(v: Numeral, rest: string)
    requires rest == (if v.fraction == "" then "" else "." + v.fraction) + (if v.exponent == "" then "" else [v.mark] + v.sign + v.exponent)
    ensures PrintNumeral(v) == (if v.negative then "-" else "") + (v.whole + rest)
  {
    var fraction := if v.fraction == "" then "" else "." + v.fraction;
    var exponent := if v.exponent == "" then "" else [v.mark] + v.sign + v.exponent;
    Regroup(if v.negative then "-" else "", v.whole, fraction, exponent);
  }

  lemma TakeNumeral(s: State, negative: bool, b: string, pos: nat, n: nat) returns (v: Numeral, q: nat)
    requires Reaches(s, b, pos, n) && pos < |b| && IsDigit(b[pos])
    requires if negative then s.mode == JsonObject.Number(Minus) else Starts(s)
    ensures pos < q <= |b| && IsNumeral(v) && (if negative then "-" else "") + b[pos..q] == PrintNumeral(v)
    ensures Reaches(To(s, AfterValue), b, q, n)
  {
    var d, mid := TakeWhole(s, b, pos, n);
    var fraction, mark, sign, exponent, end := TakeRest(To(s, JsonObject.Number(d)), d, b, mid, n);
    q := end;
    v := Numeral(negative, b[pos..mid], fraction, mark, sign, exponent);
    Longer(b, pos, mid, q);
    NumeralText(v, b[mid..q]);
  }

  // ---- Values ------------------------------------------------------------------

  ghost predicate IsValue(s: State, b: string, pos: nat, n: nat, v: Json, q: nat) {
    pos < q <= |b| && IsJson(v) && b[pos..q] == Print(v) && Reaches(To(s, AfterValue), b, q, n)
  }

  lemma NameText(s: State, c: char)
    requires Starts(s) && Step(s, c).mode.Word?
    ensures Step(s, c) == To(s, Step(s, c).mode) && Step(s, c).mode.rest != "" && IsName([c] + Step(s, c).mode.rest)
  {
    assert "t" + "rue" == "true" && "f" + "alse" == "false" && "n" + "ull" == "null";
    assert "N" + "aN" == "NaN" && "I" + "nfinity" == "Infinity";
  }

  lemma TakeName(s: State, b: string, pos: nat, n: nat) returns (v: Json, q: nat)
    requires Reaches(s, b, pos, n) && Starts(s) && pos < |b| && Step(s, b[pos]).mode.Word?
    ensures IsValue(s, b, pos, n, v, q)
  {
    OneOn(s, b, pos, n);
    var inside := Step(s, b[pos]);
    NameText(s, b[pos]);
    q := TakeWord(inside, b, pos + 1, n);
    Longer(b, pos, pos + 1, q);
    assert b[pos..q] == [b[pos]] + inside.mode.rest;
    v := Name(b[pos..q]);
  }

  lemma TakeMinusInfinity(s: State, b: string, pos: nat, n: nat) returns (v: Json, q: nat)
    requires pos + 2 <= |b| && b[pos] == '-' && b[pos + 1] == 'I' && Reaches(To(s, Word("nfinity")), b, pos + 2, n)
    ensures IsValue(s, b, pos, n, v, q)
  {
    q := TakeWord(To(s, Word("nfinity")), b, pos + 2, n);
    Longer(b, pos, pos + 2, q);
    assert b[pos..pos + 2] == "-I" && "-I" + "nfinity" == "-Infinity";
    v := Name("-Infinity");
  }

  lemma TakeNegative(s: State, b: string, pos: nat, n: nat) returns (v: Json, q: nat)
    requires Reaches(s, b, pos, n) && Starts(s) && pos < |b| && b[pos] == '-'
    ensures IsValue(s, b, pos, n, v, q)
  {
    OneOn(s, b, pos, n);
    var minus := To(s, JsonObject.Number(Minus));
    OneOn(minus, b, pos + 1, n);
    if b[pos + 1] == 'I' {
      v, q := TakeMinusInfinity(s, b, pos, n);
    } else {
      var m;
      m, q := TakeNumeral(minus, true, b, pos + 1, n);
      assert b[pos..q] == "-" + b[pos + 1..q] by { Longer(b, pos, pos + 1, q); }
      v := Numeric(m);
    }
  }

  lemma TakeQuoted(s: State, b: string, pos: nat, n: nat) returns (v: Json, q: nat)
    requires Reaches(s, b, pos, n) && Starts(s) && pos < |b| && b[pos] == '"'
    ensures IsValue(s, b, pos, n, v, q)
  {
    OneOn(s, b, pos, n);
    q := TakeBody(To(s, JsonObject.Text(false)), false, b, pos + 1, n);
    v := Quoted(b[pos + 1..q - 1]);
    Longer(b, pos, pos + 1, q);
    Longer(b, pos + 1, q - 1, q);
  }

  lemma {:induction false} TakeValue(s: State, b: string, pos: nat, n: nat) returns (v: Json, q: nat)
    requires Reaches(s, b, pos, n) && Starts(s) && s.open != []
    requires pos < |b| && !IsBlank(b[pos]) && (s.mode.ValueOrEnd? ==> b[pos] != ']')
    ensures IsValue(s, b, pos, n, v, q)
    decreases |b| - pos, 0
  {
    var c := b[pos];
    OneOn(s, b, pos, n);
    assert Step(s, c) == StartValue(s, c);
    if c == '{' {
      v, q := TakeObject(State(KeyOrEnd, s.open + [InObject]), s.open, b, pos + 1, n);
      Longer(b, pos, pos + 1, q);
    } else if c == '[' {
      v, q := TakeArray(State(ValueOrEnd, s.open + [InArray]), s.open, b, pos + 1, n);
      Longer(b, pos, pos + 1, q);
    } else if c == '"' {
      v, q := TakeQuoted(s, b, pos, n);
    } else if c == '-' {
      v, q := TakeNegative(s, b, pos, n);
    } else if IsDigit(c) {
      var m;
      m, q := TakeNumeral(s, false, b, pos, n);
      assert "" + b[pos..q] == b[pos..q];
      v := Numeric(m);
    } else {
      v, q := TakeName(s, b, pos, n);
    }
  }

  /** A value between blanks, and what follows it. */
  lemma {:induction false} TakePadded(s: State, b: string, pos: nat, n: nat) returns (p: Padded, q: nat)
    requires Reaches(s, b, pos, n) && s.mode.Value? && s.open != []
    ensures pos < q < |b| && IsPadded(p) && b[pos..q] == PrintPadded(p) && !IsBlank(b[q])
    ensures Reaches(To(s, AfterValue), b, q, n)
    decreases |b| - pos, 1
  {
    var from := TakeBlanks(s, b, pos, n);
    var v, mid := TakeValue(s, b, from, n);
    q := TakeBlanks(To(s, AfterValue), b, mid, n);
    p := Padded(b[pos..from], v, b[mid..q]);
    Longer(b, pos, from, q);
    Longer(b, from, mid, q);
  }

  // ---- Containers ----------------------------------------------------------------

  /** Leaving the innermost of the containers. */
  function Outer(open: seq<Container>): State { if open == [] then State(Finished, []) else State(AfterValue, open) }

  lemma PopsTo(s: State, open: seq<Container>, k: Container)
    requires s.open == open + [k]
    ensures Pop(s) == Outer(open) && Innermost(s, k)
  {
    assert (open + [k])[..|open|] == open;
  }

  lemma ItemsText(p: Padded, rest: seq<Padded>)
    ensures var text := if rest == [] then "]" else "," + (PrintItems(rest) + "]");
      PrintItems([p] + rest) + "]" == PrintPadded(p) + text
  {
    var items := [p] + rest;
    assert items[1..] == rest;
    if rest == [] {
      assert PrintItems(items) == PrintPadded(p) + "";
    } else {
      assert PrintItems(items) == PrintPadded(p) + ("," + PrintItems(rest));
      Regroup(PrintPadded(p), ",", PrintItems(rest), "]");
    }
  }

  lemma {:induction false} TakeItems(s: State, open: seq<Container>, b: string, pos: nat, n: nat) returns (items: seq<Padded>, q: nat)
    requires Reaches(s, b, pos, n) && s == State(Value, open + [InArray])
    ensures pos < q <= |b| && items != [] && (forall i :: 0 <= i < |items| ==> IsPadded(items[i]))
    ensures b[pos..q] == PrintItems(items) + "]" && Reaches(Outer(open), b, q, n)
    decreases |b| - pos, 2
  {
    var p, mid := TakePadded(s, b, pos, n);
    assert Reaches(FollowValue(To(s, AfterValue), b[mid]), b, mid + 1, n) by { OneOn(To(s, AfterValue), b, mid, n); }
    PopsTo(To(s, AfterValue), open, InArray);
    if b[mid] == ',' {
      var rest;
      rest, q := TakeItems(s, open, b, mid + 1, n);
      items := [p] + rest;
      assert b[pos..q] == PrintPadded(p) + ("," + (PrintItems(rest) + "]")) by {
        Longer(b, pos, mid, q);
        Longer(b, mid, mid + 1, q);
      }
      ItemsText(p, rest);
    } else {
      items, q := [p], mid + 1;
      assert b[pos..q] == PrintPadded(p) + "]" by { Longer(b, pos, mid, q); }
      ItemsText(p, []);
    }
  }

  /** The blanks where a value or the end may be are blanks before the value. */
  lemma {:induction false} ValueAhead(s: State, b: string, pos: nat, q: nat, n: nat)
    requires Reaches(s, b, pos, n) && s.mode.ValueOrEnd? && pos <= q < |b| && Blanks(b[pos..q]) && !IsBlank(b[q]) && b[q] != ']'
    ensures Reaches(To(s, Value), b, pos, n)
    decreases q - pos
  {
    OneOn(s, b, pos, n);
    if pos < q {
      assert IsBlank(b[pos..q][0]) && b[pos..q][1..] == b[pos + 1..q];
      ValueAhead(s, b, pos + 1, q, n);
    } else {
      SameOn(s, To(s, Value), b, pos, n);
    }
  }

  lemma {:induction false} TakeArray(s: State, open: seq<Container>, b: string, pos: nat, n: nat) returns (v: Json, q: nat)
    requires Reaches(s, b, pos, n) && s == State(ValueOrEnd, open + [InArray])
    ensures pos < q <= |b| && v.Array? && IsJson(v) && "[" + b[pos..q] == Print(v) && Reaches(Outer(open), b, q, n)
    decreases |b| - pos, 3
  {
    var mid := TakeBlanks(s, b, pos, n);
    if b[mid] == ']' {
      OneOn(s, b, mid, n);
      PopsTo(s, open, InArray);
      v, q := Array([], b[pos..mid]), mid + 1;
      Bracketed(b, pos, mid, "[");
    } else {
      ValueAhead(s, b, pos, mid, n);
      var items;
      items, q := TakeItems(To(s, Value), open, b, pos, n);
      v := Array(items, "");
      assert Print(v) == "[" + PrintItems(items) + "]";
      Wrapped("[", PrintItems(items), "]");
    }
  }

  lemma KeyText(b: string, pos: nat, from: nat, quote: nat, end: nat)
    requires pos <= from && from + 1 < quote <= end < |b| && b[from] == '"' && b[quote-1] == '"' && b[end] == ':'
    ensures b[pos..end + 1] == b[pos..from] + "\"" + b[from + 1..quote - 1] + "\"" + b[quote..end] + ":"
  {
  }

  /** A key with its colon. */
  lemma TakeKey(s: State, b: string, pos: nat, n: nat) returns (before: string, key: string, colon: string, q: nat)
    requires Reaches(s, b, pos, n) && s.mode.Key?
    ensures pos < q <= |b| && Blanks(before) && IsBody(key) && Blanks(colon) && Reaches(To(s, Value), b, q, n)
    ensures b[pos..q] == before + "\"" + key + "\"" + colon + ":"
  {
    var from := TakeBlanks(s, b, pos, n);
    OneOn(s, b, from, n);
    var quote := TakeBody(To(s, JsonObject.Text(true)), true, b, from + 1, n);
    var end := TakeBlanks(To(s, Colon), b, quote, n);
    OneOn(To(s, Colon), b, end, n);
    q := end + 1;
    before, key, colon := b[pos..from], b[from + 1..quote - 1], b[quote..end];
    KeyText(b, pos, from, quote, end);
  }

  function MemberText(m: Member): string { m.before + "\"" + m.key + "\"" + m.colon + ":" + PrintPadded(m.value) }

  lemma MembersText(m: Member, rest: seq<Member>)
    ensures var text := if rest == [] then "}" else "," + (PrintMembers(rest) + "}");
      PrintMembers([m] + rest) + "}" == MemberText(m) + text
  {
    var members := [m] + rest;
    assert members[1..] == rest;
    if rest == [] {
      assert PrintMembers(members) == MemberText(m) + "";
    } else {
      assert PrintMembers(members) == MemberText(m) + ("," + PrintMembers(rest));
      Regroup(MemberText(m), ",", PrintMembers(rest), "}");
    }
  }

  lemma {:induction false} TakeMember(s: State, b: string, pos: nat, n: nat) returns (m: Member, q: nat)
    requires Reaches(s, b, pos, n) && s.mode.Key? && s.open != []
    ensures pos < q < |b| && IsMember(m) && b[pos..q] == MemberText(m) && !IsBlank(b[q])
    ensures Reaches(To(s, AfterValue), b, q, n)
    decreases |b| - pos, 2
  {
    var before, key, colon, from := TakeKey(s, b, pos, n);
    var p, end := TakePadded(To(s, Value), b, from, n);
    m, q := Member(before, key, colon, p), end;
    Longer(b, pos, from, q);
  }

  lemma {:induction false} TakeMembers(s: State, open: seq<Container>, b: string, pos: nat, n: nat) returns (members: seq<Member>, q: nat)
    requires Reaches(s, b, pos, n) && s == State(Key, open + [InObject])
    ensures pos < q <= |b| && members != [] && (forall i :: 0 <= i < |members| ==> IsMember(members[i]))
    ensures b[pos..q] == PrintMembers(members) + "}" && Reaches(Outer(open), b, q, n)
    decreases |b| - pos, 3
  {
    var m, mid := TakeMember(s, b, pos, n);
    assert Reaches(FollowValue(To(s, AfterValue), b[mid]), b, mid + 1, n) by { OneOn(To(s, AfterValue), b, mid, n); }
    PopsTo(To(s, AfterValue), open, InObject);
    if b[mid] == ',' {
      var rest;
      rest, q := TakeMembers(s, open, b, mid + 1, n);
      members := [m] + rest;
      assert b[pos..q] == MemberText(m) + ("," + (PrintMembers(rest) + "}")) by {
        Longer(b, pos, mid, q);
        Longer(b, mid, mid + 1, q);
      }
      MembersText(m, rest);
    } else {
      members, q := [m], mid + 1;
      assert b[pos..q] == MemberText(m) + "}" by { Longer(b, pos, mid, q); }
      MembersText(m, []);
    }
  }

  lemma {:induction false} KeyAhead(s: State, b: string, pos: nat, q: nat, n: nat)
    requires Reaches(s, b, pos, n) && s.mode.KeyOrEnd? && pos <= q < |b| && Blanks(b[pos..q]) && !IsBlank(b[q]) && b[q] != '}'
    ensures Reaches(To(s, Key), b, pos, n)
    decreases q - pos
  {
    OneOn(s, b, pos, n);
    if pos < q {
      assert IsBlank(b[pos..q][0]) && b[pos..q][1..] == b[pos + 1..q];
      KeyAhead(s, b, pos + 1, q, n);
    } else {
      SameOn(s, To(s, Key), b, pos, n);
    }
  }

  lemma {:induction false} TakeObject(s: State, open: seq<Container>, b: string, pos: nat, n: nat) returns (v: Json, q: nat)
    requires Reaches(s, b, pos, n) && s == State(KeyOrEnd, open + [InObject])
    ensures pos < q <= |b| && v.Object? && IsJson(v) && "{" + b[pos..q] == Print(v) && Reaches(Outer(open), b, q, n)
    decreases |b| - pos, 4
  {
    var mid := TakeBlanks(s, b, pos, n);
    if b[mid] == '}' {
      OneOn(s, b, mid, n);
      PopsTo(s, open, InObject);
      v, q := Object([], b[pos..mid]), mid + 1;
      Bracketed(b, pos, mid, "{");
    } else {
      KeyAhead(s, b, pos, mid, n);
      var members;
      members, q := TakeMembers(To(s, Key), open, b, pos, n);
      v := Object(members, "");
      assert Print(v) == "{" + PrintMembers(members) + "}";
      Wrapped("{", PrintMembers(members), "}");
    }
  }

  // ---- The scanner and the grammar -------------------------------------------------

  ghost predicate PrintsObject(text: string) { exists v :: IsJson(v) && v.Object? && Print(v) == text }

  lemma ScannedIsObject(text: string)
    requires ObjectLength(text) == Some(|text|)
    ensures PrintsObject(text)
  {
    assert OPENED == State(KeyOrEnd, [] + [InObject]);
    var v, q := TakeObject(OPENED, [], text, 1, |text|);
    assert text[..1] == "{" && text == text[..1] + text[1..];
  }

  /** The scanner ends exactly behind what the grammar calls an object. */
  lemma ScannerIsGrammar(text: string, n: nat)
    ensures ObjectLength(text) == Some(n) <==> n <= |text| && PrintsObject(text[..n])
  {
    if ObjectLength(text) == Some(n) {
      assert text == text[..n] + text[n..];
      ObjectShrinks(text[..n], text[n..]);
      ScannedIsObject(text[..n]);
    }
    if n <= |text| && PrintsObject(text[..n]) {
      var v :| IsJson(v) && v.Object? && Print(v) == text[..n];
      ObjectIsScanned(v, text[n..]);
      assert text == text[..n] + text[n..];
    }
  }
}
