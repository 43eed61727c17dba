/**
 The object scanner behind `raw_decode`, as a pushdown machine over characters (section 4 of RFC 8259, with
 the `NaN` and `Infinity` words the decoder also takes). It stops right behind the closing brace.
 */
module JsonObject {
  import opened Prelude

  datatype Container = InObject | InArray

  datatype Digits = Minus | Zero | Whole | Point | Fraction | Exponent | ExponentSign | Power

  datatype Mode =
    | KeyOrEnd                                // behind `{`
    | Key                                     // behind a comma in an object
    | Colon                                   // behind a key
    | Value                                   // where a value must start
    | ValueOrEnd                              // behind `[`
    | AfterValue                              // where a comma or a closing bracket must follow
    | Text(key: bool)                         // inside a string
    | Escape(key: bool)                       // behind a backslash
    | Hex(key: bool, left: nat)               // inside `\uXXXX`
    | Number(digits: Digits)
    | Word(rest: string)                      // the rest of a literal name
    | Finished
    | Failed

  /** The mode and the open containers, the innermost last. */
  datatype State = State(mode: Mode, open: seq<Container>)

  predicate IsBlank(c: char) { c == ' ' || c == '\t' || c == '\n' || c == '\r' }

  predicate IsDigit(c: char) { '0' <= c <= '9' }

  predicate IsHexDigit(c: char) { IsDigit(c) || 'a' <= c <= 'f' || 'A' <= c <= 'F' }

  predicate IsEscape(c: char) { c in ['"', '\\', '/', 'b', 'f', 'n', 'r', 't'] }

  function To(s: State, m: Mode): State { s.(mode := m) }

  function Push(s: State, k: Container, m: Mode): State { State(m, s.open + [k]) }

  /** Leave the innermost container. */
  function Pop(s: State): State {
    if |s.open| <= 1 then State(Finished, []) else State(AfterValue, s.open[..|s.open|-1])
  }

  predicate Innermost(s: State, k: Container) { s.open != [] && s.open[|s.open|-1] == k }

  function StartValue(s: State, c: char): State {
    if c == '{' then Push(s, InObject, KeyOrEnd)
    else if c == '[' then Push(s, InArray, ValueOrEnd)
    else if c == '"' then To(s, Text(false))
    else if c == '-' then To(s, Number(Minus))
    else if c == '0' then To(s, Number(Zero))
    else if IsDigit(c) then To(s, Number(Whole))
    else if c == 't' then To(s, Word("rue"))
    else if c == 'f' then To(s, Word("alse"))
    else if c == 'n' then To(s, Word("ull"))
    else if c == 'N' then To(s, Word("aN"))
    else if c == 'I' then To(s, Word("nfinity"))
    else To(s, Failed)
  }

  function FollowValue(s: State, c: char): State {
    if IsBlank(c) then To(s, AfterValue)
    else if c == ',' then To(s, if Innermost(s, InObject) then Key else Value)
    else if c == '}' && Innermost(s, InObject) then Pop(s)
    else if c == ']' && Innermost(s, InArray) then Pop(s)
    else To(s, Failed)
  }

  /** What a further character makes of a number, or nothing when it does not belong to it. */
  function NextDigits(d: Digits, c: char): Option<Digits> {
    match d
    case Minus => if c == '0' then Some(Zero) else if IsDigit(c) then Some(Whole) else None
    case Zero => if c == '.' then Some(Point) else if c == 'e' || c == 'E' then Some(Exponent) else None
    case Whole => if IsDigit(c) then Some(Whole) else if c == '.' then Some(Point) else if c == 'e' || c == 'E' then Some(Exponent) else None
    case Point => if IsDigit(c) then Some(Fraction) else None
    case Fraction => if IsDigit(c) then Some(Fraction) else if c == 'e' || c == 'E' then Some(Exponent) else None
    case Exponent => if c == '+' || c == '-' then Some(ExponentSign) else if IsDigit(c) then Some(Power) else None
    case ExponentSign => if IsDigit(c) then Some(Power) else None
    case Power => if IsDigit(c) then Some(Power) else None
  }

  function FollowNumber(s: State, d: Digits, c: char): State {
    if NextDigits(d, c).Some? then To(s, Number(NextDigits(d, c).value))
    else if d.Minus? && c == 'I' then To(s, Word("nfinity"))
    else if d.Zero? || d.Whole? || d.Fraction? || d.Power? then FollowValue(s, c)
    else To(s, Failed)
  }

  function FollowText(s: State, key: bool, c: char): State {
    if c == '"' then To(s, if key then Colon else AfterValue)
    else if c == '\\' then To(s, Escape(key))
    else if c < ' ' then To(s, Failed)
    else s
  }

  /** One character. */
  function Step(s: State, c: char): State {
    match s.mode
    case KeyOrEnd => if IsBlank(c) then s else if c == '"' then To(s, Text(true)) else if c == '}' then Pop(s) else To(s, Failed)
    case Key => if IsBlank(c) then s else if c == '"' then To(s, Text(true)) else To(s, Failed)
    case Colon => if IsBlank(c) then s else if c == ':' then To(s, Value) else To(s, Failed)
    case Value => if IsBlank(c) then s else StartValue(s, c)
    case ValueOrEnd => if IsBlank(c) then s else if c == ']' then Pop(s) else StartValue(s, c)
    case AfterValue => FollowValue(s, c)
    case Text(key) => FollowText(s, key, c)
    case Escape(key) => if c == 'u' then To(s, Hex(key, 4)) else if IsEscape(c) then To(s, Text(key)) else To(s, Failed)
    case Hex(key, left) =>
      if !IsHexDigit(c) || left == 0 then To(s, Failed) else if left == 1 then To(s, Text(key)) else To(s, Hex(key, left - 1))
    case Number(d) => FollowNumber(s, d, c)
    case Word(rest) =>
      if rest == "" || c != rest[0] then To(s, Failed) else To(s, if |rest| == 1 then AfterValue else Word(rest[1..]))
    case Finished => s
    case Failed => s
  }

  /** Where the machine finishes in the buffer, if it does. */
  function Scan(s: State, buffer: string, pos: nat): (end: Option<nat>)
    requires pos <= |buffer|
    ensures end.Some? ==> pos <= end.value <= |buffer|
    decreases |buffer| - pos
  {
    if s.mode.Finished? then Some(pos)
    else if s.mode.Failed? || pos == |buffer| then None
    else Scan(Step(s, buffer[pos]), buffer, pos + 1)
  }

  const OPENED := State(KeyOrEnd, [InObject])

  /** The length of the object the buffer starts with; `None` when it starts with none or not with all of it. */
  function ObjectLength(buffer: string): (n: Option<nat>)
    ensures n.Some? ==> 1 <= n.value <= |buffer|
  {
    if buffer == "" || buffer[0] != '{' then None else Scan(OPENED, buffer, 1)
  }

  // ---- Objects delimit themselves -------------------------------------------

  lemma {:induction false} ScanExtends(s: State, buffer: string, more: string, pos: nat)
    requires pos <= |buffer| && Scan(s, buffer, pos).Some?
    ensures Scan(s, buffer + more, pos) == Scan(s, buffer, pos)
    decreases |buffer| - pos
  {
    if !s.mode.Finished? {
      assert (buffer + more)[pos] == buffer[pos];
      ScanExtends(Step(s, buffer[pos]), buffer, more, pos + 1);
    }
  }

  lemma {:induction false} ScanShrinks(s: State, buffer: string, more: string, pos: nat)
    requires pos <= |buffer| && Scan(s, buffer + more, pos).Some? && Scan(s, buffer + more, pos).value <= |buffer|
    ensures Scan(s, buffer, pos) == Scan(s, buffer + more, pos)
    decreases |buffer| - pos
  {
    if !s.mode.Finished? {
      ScanAdvances(s, buffer + more, pos);
      assert (buffer + more)[pos] == buffer[pos];
      ScanShrinks(Step(s, buffer[pos]), buffer, more, pos + 1);
    }
  }

  lemma ScanAdvances(s: State, buffer: string, pos: nat)
    requires pos <= |buffer| && Scan(s, buffer, pos).Some? && !s.mode.Finished?
    ensures pos < Scan(s, buffer, pos).value && pos < |buffer| && !s.mode.Failed?
    ensures Scan(s, buffer, pos) == Scan(Step(s, buffer[pos]), buffer, pos + 1)
  {
  }

  /** An object found in a buffer is the object found in every longer buffer. */
  lemma ObjectExtends(buffer: string, more: string)
    requires ObjectLength(buffer).Some?
    ensures ObjectLength(buffer + more) == ObjectLength(buffer)
  {
    ScanExtends(OPENED, buffer, more, 1);
  }

  /** An object is found as soon as all of it is in the buffer. */
  lemma ObjectShrinks(buffer: string, more: string)
    requires ObjectLength(buffer + more).Some? && ObjectLength(buffer + more).value <= |buffer|
    ensures ObjectLength(buffer) == ObjectLength(buffer + more)
  {
    assert (buffer + more)[0] == buffer[0];
    ScanShrinks(OPENED, buffer, more, 1);
  }
}
