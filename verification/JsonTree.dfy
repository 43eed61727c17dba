/** Every JSON object, however it is spaced, is an object to the scanner, up to its closing brace. */
module JsonTree {
  import opened Prelude
  import opened JsonObject

  // ---- Values by the grammar of RFC 8259, sections 3 to 7 --------------------

  datatype Numeral = Numeral(negative: bool, whole: string, fraction: string, mark: char, sign: string, exponent: string)

  datatype Json =
    | Quoted(body: string)
    | Numeric(n: Numeral)
    | Name(word: string)
    | Array(items: seq<Padded>, blank: string)
    | Object(members: seq<Member>, blank: string)

  datatype Padded = Padded(before: string, value: Json, after: string)

  datatype Member = Member(before: string, key: string, colon: string, value: Padded)

  predicate Blanks(s: string) { forall i :: 0 <= i < |s| ==> IsBlank(s[i]) }

  predicate AllDigits(s: string) { forall i :: 0 <= i < |s| ==> IsDigit(s[i]) }

  /** Characters of a string: unescaped, a two-character escape, or `\u` and four hexadecimal digits. */
  predicate IsBody(s: string) {
    if s == "" then true
    else if s[0] != '\\' then s[0] != '"' && s[0] >= ' ' && IsBody(s[1..])
    else if |s| >= 2 && s[1] != 'u' then IsEscape(s[1]) && IsBody(s[2..])
    else |s| >= 6 && IsHexDigit(s[2]) && IsHexDigit(s[3]) && IsHexDigit(s[4]) && IsHexDigit(s[5]) && IsBody(s[6..])
  }

  predicate IsNumeral(n: Numeral) {
    && (n.whole == "0" || (n.whole != "" && n.whole[0] != '0')) && AllDigits(n.whole)
    && AllDigits(n.fraction) && AllDigits(n.exponent) && (n.sign == "" || n.sign == "+" || n.sign == "-")
    && (n.exponent == "" ==> n.sign == "") && (n.mark == 'e' || n.mark == 'E')
  }

  predicate IsName(w: string) { w in ["true", "false", "null", "NaN", "Infinity", "-Infinity"] }

  predicate IsJson(v: Json) {
    match v
    case Quoted(body) => IsBody(body)
    case Numeric(n) => IsNumeral(n)
    case Name(word) => IsName(word)
    case Array(items, blank) => Blanks(blank) && forall i :: 0 <= i < |items| ==> IsPadded(items[i])
    case Object(members, blank) => Blanks(blank) && forall i :: 0 <= i < |members| ==> IsMember(members[i])
  }

  predicate IsPadded(p: Padded) { Blanks(p.before) && Blanks(p.after) && IsJson(p.value) }

  predicate IsMember(m: Member) { Blanks(m.before) && Blanks(m.colon) && IsBody(m.key) && IsPadded(m.value) }

  function PrintNumeral(n: Numeral): string {
    (if n.negative then "-" else "") + n.whole + (if n.fraction == "" then "" else "." + n.fraction)
    + (if n.exponent == "" then "" else [n.mark] + n.sign + n.exponent)
  }

  function Print(v: Json): string
    decreases v
  {
    match v
    case Quoted(body) => "\"" + body + "\""
    case Numeric(n) => PrintNumeral(n)
    case Name(word) => word
    case Array(items, blank) => "[" + (if items == [] then blank else PrintItems(items)) + "]"
    case Object(members, blank) => "{" + (if members == [] then blank else PrintMembers(members)) + "}"
  }

  function PrintPadded(p: Padded): string
    decreases p
  {
    p.before + Print(p.value) + p.after
  }

  function PrintItems(items: seq<Padded>): string
    requires items != []
    decreases items
  {
    PrintPadded(items[0]) + (if |items| == 1 then "" else "," + PrintItems(items[1..]))
  }

  function PrintMembers(members: seq<Member>): string
    requires members != []
    decreases members
  {
    var m := members[0];
    m.before + "\"" + m.key + "\"" + m.colon + ":" + PrintPadded(m.value) +
    (if |members| == 1 then "" else "," + PrintMembers(members[1..]))
  }

  // ---- Running the machine --------------------------------------------------

  function Run(s: State, text: string): State
    decreases |text|
  {
    if text == "" then s else Run(Step(s, text[0]), text[1..])
  }

  lemma {:induction false} RunAppend(s: State, a: string, b: string)
    ensures Run(s, a + b) == Run(Run(s, a), b)
    decreases |a|
  {
    if a == "" {
      assert a + b == b;
    } else {
      assert (a + b)[0] == a[0] && (a + b)[1..] == a[1..] + b;
      RunAppend(Step(s, a[0]), a[1..], b);
    }
  }

  lemma RunOne(s: State, c: char)
    ensures Run(s, [c]) == Step(s, c)
  {
    assert [c][1..] == "";
    assert Run(Step(s, c), "") == Step(s, c);
  }

  lemma RunCons(s: State, c: char, rest: string)
    ensures Run(s, [c] + rest) == Run(Step(s, c), rest)
  {
    assert ([c] + rest)[1..] == rest;
  }

  predicate SkipsBlanks(m: Mode) { m.KeyOrEnd? || m.Key? || m.Colon? || m.Value? || m.ValueOrEnd? || m.AfterValue? }

  lemma {:induction false} RunBlanks(s: State, blank: string)
    requires Blanks(blank) && SkipsBlanks(s.mode)
    ensures Run(s, blank) == s
    decreases |blank|
  {
    if blank != "" {
      RunBlanks(s, blank[1..]);
    }
  }

  /** A value has been read: whatever may follow one does what it does behind a value. */
  predicate Settled(s: State, open: seq<Container>) {
    && s.open == open
    && (s.mode.AfterValue? ||
        (s.mode.Number? && (s.mode.digits.Zero? || s.mode.digits.Whole? || s.mode.digits.Fraction? || s.mode.digits.Power?)))
  }

  predicate MayFollow(c: char) { IsBlank(c) || c == ',' || c == ']' || c == '}' }

  lemma SettledFollows(s: State, open: seq<Container>, c: char)
    requires Settled(s, open) && MayFollow(c)
    ensures Step(s, c) == FollowValue(State(AfterValue, open), c)
  {
  }

  /** Blanks behind a value, and then what may follow it. */
  lemma {:induction false} SettledBlanks(s: State, open: seq<Container>, blank: string)
    requires Settled(s, open) && Blanks(blank)
    ensures Settled(Run(s, blank), open)
    decreases |blank|
  {
    if blank != "" {
      SettledFollows(s, open, blank[0]);
      SettledBlanks(Step(s, blank[0]), open, blank[1..]);
    }
  }

  // ---- Strings, numbers and names -------------------------------------------

  lemma {:induction false} RunBody(s: State, key: bool, body: string)
    requires IsBody(body) && s.mode == JsonObject.Text(key)
    ensures Run(s, body + "\"") == To(s, if key then Colon else AfterValue)
    decreases |body|
  {
    var text := body + "\"";
    if body == "" {
      assert text == ['"'];
      RunOne(s, '"');
    } else if body[0] != '\\' {
      assert text[1..] == body[1..] + "\"";
      RunBody(s, key, body[1..]);
    } else if |body| >= 2 && body[1] != 'u' {
      assert text[1..][1..] == body[2..] + "\"";
      RunBody(s, key, body[2..]);
    } else {
      RunHex(s, key, body, text);
      RunBody(s, key, body[6..]);
    }
  }

  lemma RunHex(s: State, key: bool, body: string, text: string)
    requires |body| >= 6 && body[0] == '\\' && body[1] == 'u' && text == body + "\"" && s.mode == JsonObject.Text(key)
    requires IsHexDigit(body[2]) && IsHexDigit(body[3]) && IsHexDigit(body[4]) && IsHexDigit(body[5])
    ensures Run(s, text) == Run(s, body[6..] + "\"")
  {
    var s2 := To(s, Hex(key, 4));
    assert Run(s, text) == Run(s2, text[2..]) by {
      assert text[1..][1..] == text[2..];
      assert Step(Step(s, '\\'), 'u') == s2;
    }
    RunDigit(s2, key, 4, text[2..]);
    assert text[2..][1..] == text[3..] && text[3..][1..] == text[4..] && text[4..][1..] == text[5..] && text[5..][1..] == text[6..];
    RunDigit(To(s, Hex(key, 3)), key, 3, text[3..]);
    RunDigit(To(s, Hex(key, 2)), key, 2, text[4..]);
    RunDigit(To(s, Hex(key, 1)), key, 1, text[5..]);
    assert text[6..] == body[6..] + "\"";
    assert To(s, JsonObject.Text(key)) == s;
  }

  lemma RunDigit(s: State, key: bool, left: nat, text: string)
    requires s.mode == Hex(key, left) && left >= 1 && text != "" && IsHexDigit(text[0])
    ensures Run(s, text) == Run(To(s, if left == 1 then JsonObject.Text(key) else Hex(key, left - 1)), text[1..])
  {
  }

  /** A value may start here. */
  predicate Starts(s: State) { s.mode.Value? || s.mode.ValueOrEnd? }

  lemma RunQuoted(s: State, body: string)
    requires IsBody(body) && Starts(s)
    ensures Settled(Run(s, "\"" + body + "\""), s.open)
  {
    var text := "\"" + body + "\"";
    assert text[1..] == body + "\"";
    RunBody(To(s, JsonObject.Text(false)), false, body);
  }

  lemma NameStarts(s: State, word: string)
    requires IsName(word) && word != "-Infinity" && Starts(s)
    ensures Step(s, word[0]) == To(s, Word(word[1..])) && |word| > 1
  {
    if word == "true" {
      assert word[1..] == "rue";
    } else if word == "false" {
      assert word[1..] == "alse";
    } else if word == "null" {
      assert word[1..] == "ull";
    } else if word == "NaN" {
      assert word[1..] == "aN";
    } else {
      assert word[1..] == "nfinity";
    }
  }

  lemma RunMinusInfinity(s: State, word: string, middle: string, tail: string)
    requires Starts(s) && word == ['-'] + middle && middle == ['I'] + tail && tail == "nfinity"
    ensures Run(s, word) == Run(To(s, Word(tail)), tail)
  {
    RunCons(s, '-', middle);
    RunCons(To(s, JsonObject.Number(Minus)), 'I', tail);
  }

  lemma RunName(s: State, word: string)
    requires IsName(word) && Starts(s)
    ensures Settled(Run(s, word), s.open)
  {
    if word == "-Infinity" {
      var middle, tail := word[1..], word[2..];
      assert word == ['-'] + middle && middle == ['I'] + tail && tail == "nfinity";
      RunMinusInfinity(s, word, middle, tail);
      RunWord(To(s, Word(tail)));
    } else {
      NameStarts(s, word);
      RunWord(To(s, Word(word[1..])));
    }
  }

  lemma {:induction false} RunWord(s: State)
    requires s.mode.Word? && s.mode.rest != ""
    ensures Run(s, s.mode.rest) == To(s, AfterValue)
    decreases |s.mode.rest|
  {
    var rest := s.mode.rest;
    if |rest| == 1 {
      assert rest[1..] == "";
      assert Run(To(s, AfterValue), "") == To(s, AfterValue);
    } else {
      RunWord(To(s, Word(rest[1..])));
    }
  }

  lemma {:induction false} RunDigits(s: State, d: Digits, digits: string)
    requires s.mode == JsonObject.Number(d) && (d.Whole? || d.Fraction? || d.Power?) && AllDigits(digits)
    ensures Run(s, digits) == s
    decreases |digits|
  {
    if digits != "" {
      assert Step(s, digits[0]) == s;
      RunDigits(s, d, digits[1..]);
    }
  }

  /** The digits of the integer part. */
  lemma RunWhole(s: State, negative: bool, whole: string)
    requires Starts(s) && (whole == "0" || (whole != "" && whole[0] != '0')) && AllDigits(whole)
    ensures var t := Run(s, (if negative then "-" else "") + whole);
      t == To(s, JsonObject.Number(Zero)) || t == To(s, JsonObject.Number(Whole))
  {
    var text := (if negative then "-" else "") + whole;
    var at := if negative then To(s, JsonObject.Number(Minus)) else s;
    if negative {
      assert text[0] == '-' && text[1..] == whole;
    } else {
      assert text == whole;
    }
    var next := Step(at, whole[0]);
    assert Run(s, text) == Run(at, whole) && Run(at, whole) == Run(next, whole[1..]);
    if whole == "0" {
      assert whole[1..] == "";
      assert Run(next, "") == next;
    } else {
      assert AllDigits(whole[1..]);
      RunDigits(next, Whole, whole[1..]);
    }
  }

  lemma RunFraction(s: State, d: Digits, fraction: string)
    requires s.mode == JsonObject.Number(d) && (d.Zero? || d.Whole?) && fraction != "" && AllDigits(fraction)
    ensures Run(s, "." + fraction) == To(s, JsonObject.Number(Fraction))
  {
    var text := "." + fraction;
    assert text[1..] == fraction;
    RunDigits(To(s, JsonObject.Number(Fraction)), Fraction, fraction[1..]);
  }

  lemma RunPower(s: State, sign: string, exponent: string)
    requires s.mode == JsonObject.Number(Exponent)
    requires exponent != "" && AllDigits(exponent) && (sign == "" || sign == "+" || sign == "-")
    ensures Run(s, sign + exponent) == To(s, JsonObject.Number(Power))
  {
    var done := To(s, JsonObject.Number(Power));
    var at := if sign == "" then s else To(s, JsonObject.Number(ExponentSign));
    if sign == "" {
      assert sign + exponent == exponent;
    } else {
      RunCons(s, sign[0], exponent);
      assert sign + exponent == [sign[0]] + exponent;
    }
    assert Run(at, exponent) == Run(done, exponent[1..]);
    RunDigits(done, Power, exponent[1..]);
  }

  lemma RunExponent(s: State, d: Digits, mark: char, sign: string, exponent: string)
    requires s.mode == JsonObject.Number(d) && (d.Zero? || d.Whole? || d.Fraction?)
    requires exponent != "" && AllDigits(exponent) && (sign == "" || sign == "+" || sign == "-") && (mark == 'e' || mark == 'E')
    ensures Run(s, [mark] + sign + exponent) == To(s, JsonObject.Number(Power))
  {
    assert [mark] + sign + exponent == [mark] + (sign + exponent);
    RunCons(s, mark, sign + exponent);
    RunPower(To(s, JsonObject.Number(Exponent)), sign, exponent);
  }

  lemma RunTail(t: State, n: Numeral, middle: string, last: string)
    requires IsNumeral(n) && (t.mode == JsonObject.Number(Zero) || t.mode == JsonObject.Number(Whole))
    requires middle == (if n.fraction == "" then "" else "." + n.fraction)
    requires last == if n.exponent == "" then "" else [n.mark] + n.sign + n.exponent
    ensures Settled(Run(t, middle + last), t.open)
  {
    RunAppend(t, middle, last);
    if n.fraction != "" { RunFraction(t, t.mode.digits, n.fraction); }
    var u := Run(t, middle);
    if n.exponent != "" { RunExponent(u, u.mode.digits, n.mark, n.sign, n.exponent); }
  }

  lemma RunNumeral(s: State, n: Numeral)
    requires Starts(s) && IsNumeral(n)
    ensures Settled(Run(s, PrintNumeral(n)), s.open)
  {
    var head := (if n.negative then "-" else "") + n.whole;
    var middle := if n.fraction == "" then "" else "." + n.fraction;
    var last := if n.exponent == "" then "" else [n.mark] + n.sign + n.exponent;
    assert PrintNumeral(n) == head + (middle + last);
    RunAppend(s, head, middle + last);
    RunWhole(s, n.negative, n.whole);
    RunTail(Run(s, head), n, middle, last);
  }

  // ---- Containers ----------------------------------------------------------

  /** A value at a place where one may start settles there, whatever containers are open. */
  lemma {:induction false} RunJson(s: State, v: Json)
    requires Starts(s) && IsJson(v) && s.open != []
    ensures Settled(Run(s, Print(v)), s.open)
    decreases v
  {
    match v
    case Quoted(body) => RunQuoted(s, body);
    case Numeric(n) => RunNumeral(s, n);
    case Name(word) => RunName(s, word);
    case Array(items, blank) =>
      var inside := State(ValueOrEnd, s.open + [InArray]);
      var body := if items == [] then blank else PrintItems(items);
      assert Print(v) == ['['] + (body + "]");
      RunCons(s, '[', body + "]");
      RunAppend(inside, body, "]");
      if items == [] {
        RunBlanks(inside, blank);
      } else {
        RunItems(inside, items);
      }
      Closes(Run(inside, body), s.open, InArray, ']');
    case Object(members, blank) =>
      var inside := State(KeyOrEnd, s.open + [InObject]);
      var body := if members == [] then blank else PrintMembers(members);
      assert Print(v) == ['{'] + (body + "}");
      RunCons(s, '{', body + "}");
      RunAppend(inside, body, "}");
      if members == [] {
        RunBlanks(inside, blank);
      } else {
        RunMembers(inside, members);
      }
      Closes(Run(inside, body), s.open, InObject, '}');
  }

  /** The state just before the closing bracket. */
  predicate Closing(s: State, open: seq<Container>, k: Container) {
    Settled(s, open + [k]) || s == State(if k.InArray? then ValueOrEnd else KeyOrEnd, open + [k])
  }

  lemma Closes(s: State, open: seq<Container>, k: Container, c: char)
    requires Closing(s, open, k) && c == (if k.InArray? then ']' else '}')
    ensures Run(s, [c]) == if open == [] then State(Finished, []) else State(AfterValue, open)
  {
    RunOne(s, c);
    assert (open + [k])[..|open|] == open;
    if Settled(s, open + [k]) { SettledFollows(s, open + [k], c); }
  }

  lemma {:induction false} RunPadded(s: State, p: Padded)
    requires Starts(s) && IsPadded(p) && s.open != []
    ensures Settled(Run(s, PrintPadded(p)), s.open)
    decreases p
  {
    assert PrintPadded(p) == p.before + (Print(p.value) + p.after);
    RunAppend(s, p.before, Print(p.value) + p.after);
    RunBlanks(s, p.before);
    RunAppend(s, Print(p.value), p.after);
    RunJson(s, p.value);
    SettledBlanks(Run(s, Print(p.value)), s.open, p.after);
  }

  lemma {:induction false} RunItems(s: State, items: seq<Padded>)
    requires Starts(s) && items != [] && Innermost(s, InArray) && forall i :: 0 <= i < |items| ==> IsPadded(items[i])
    ensures Settled(Run(s, PrintItems(items)), s.open)
    decreases items
  {
    RunPadded(s, items[0]);
    if |items| > 1 {
      var t, rest := Run(s, PrintPadded(items[0])), PrintItems(items[1..]);
      assert PrintItems(items) == PrintPadded(items[0]) + ([','] + rest);
      RunAppend(s, PrintPadded(items[0]), [','] + rest);
      RunCons(t, ',', rest);
      SettledFollows(t, s.open, ',');
      RunItems(State(Value, s.open), items[1..]);
    } else {
      assert PrintItems(items) == PrintPadded(items[0]);
    }
  }

  lemma {:induction false} RunMembers(s: State, members: seq<Member>)
    requires (s.mode.KeyOrEnd? || s.mode.Key?) && members != [] && Innermost(s, InObject)
    requires forall i :: 0 <= i < |members| ==> IsMember(members[i])
    ensures Settled(Run(s, PrintMembers(members)), s.open)
    decreases members
  {
    var m := members[0];
    var more := if |members| == 1 then "" else "," + PrintMembers(members[1..]);
    var value := PrintPadded(m.value);
    RunKey(s, m, value + more);
    assert PrintMembers(members) == KeyText(m) + (value + more);
    var at := State(Value, s.open);
    RunPadded(at, m.value);
    RunAppend(at, value, more);
    if |members| > 1 {
      var rest := PrintMembers(members[1..]);
      RunCons(Run(at, value), ',', rest);
      SettledFollows(Run(at, value), s.open, ',');
      RunMembers(State(Key, s.open), members[1..]);
    }
  }

  function KeyText(m: Member): string { m.before + "\"" + m.key + "\"" + m.colon + ":" }

  lemma RunKey(s: State, m: Member, rest: string)
    requires (s.mode.KeyOrEnd? || s.mode.Key?) && Blanks(m.before) && Blanks(m.colon) && IsBody(m.key)
    ensures Run(s, KeyText(m) + rest) == Run(State(Value, s.open), rest)
  {
    var quoted, colon := m.key + "\"", To(s, Colon);
    assert KeyText(m) + rest == m.before + (['"'] + (quoted + (m.colon + ([':'] + rest))));
    RunAppend(s, m.before, ['"'] + (quoted + (m.colon + ([':'] + rest))));
    RunBlanks(s, m.before);
    RunCons(s, '"', quoted + (m.colon + ([':'] + rest)));
    var inside := To(s, JsonObject.Text(true));
    RunAppend(inside, quoted, m.colon + ([':'] + rest));
    RunBody(inside, true, m.key);
    RunAppend(colon, m.colon, [':'] + rest);
    RunBlanks(colon, m.colon);
    RunCons(colon, ':', rest);
  }

  // ---- Back to the scanner ---------------------------------------------------

  lemma {:induction false} ScanFollowsRun(s: State, buffer: string, pos: nat, n: nat)
    requires pos <= n <= |buffer| && Run(s, buffer[pos..n]).mode != Finished && Run(s, buffer[pos..n]).mode != Failed
    ensures Scan(s, buffer, pos) == Scan(Run(s, buffer[pos..n]), buffer, n)
    decreases n - pos
  {
    var text := buffer[pos..n];
    if pos < n {
      assert text[1..] == buffer[pos+1..n];
      StaysStopped(s, text);
      ScanFollowsRun(Step(s, buffer[pos]), buffer, pos + 1, n);
    }
  }

  lemma {:induction false} StaysStopped(s: State, text: string)
    ensures s.mode.Finished? || s.mode.Failed? ==> Run(s, text) == s
    decreases |text|
  {
    if text != "" {
      StaysStopped(s, text[1..]);
    }
  }

  /** Any spacing of any JSON object is scanned as one object, whatever text follows it. */
  lemma ObjectIsScanned(v: Json, more: string)
    requires IsJson(v) && v.Object?
    ensures ObjectLength(Print(v) + more) == Some(|Print(v)|)
  {
    var body := if v.members == [] then v.blank else PrintMembers(v.members);
    var text := Print(v);
    assert text == "{" + body + "}";
    if v.members == [] {
      RunBlanks(OPENED, v.blank);
    } else {
      RunMembers(OPENED, v.members);
    }
    var n := |body| + 1;
    assert text[1..n] == body && text[n] == '}';
    ScanFollowsRun(OPENED, text, 1, n);
    Closes(Run(OPENED, body), [], InObject, '}');
    RunOne(Run(OPENED, body), '}');
    ObjectExtends(text, more);
  }
}
