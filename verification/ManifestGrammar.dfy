/** The manifest's text character by character: what a line, a word, a hexadecimal field and a record are, and what is accepted. */
module ManifestGrammar {
  import opened Prelude
  import opened Hex
  import opened Manifest
  import opened ManifestRoundTrip

  // ---- Lines -------------------------------------------------------------

  /** The lines with a newline between any two. */
  function Glue(lines: seq<string>): string {
    if lines == [] then [] else if |lines| == 1 then lines[0] else lines[0] + "\n" + Glue(lines[1..])
  }

  ghost predicate AreLines(s: string, lines: seq<string>) {
    lines != [] && Glue(lines) == s && forall l :: l in lines ==> '\n' !in l
  }

  lemma {:induction false} SplitGlues(s: string)
    ensures AreLines(s, Split(s))
    decreases |s|
  {
    if s != [] {
      var rest := Split(s[1..]);
      SplitGlues(s[1..]);
      assert s == [s[0]] + s[1..];
      if s[0] == '\n' {
        assert Split(s)[1..] == rest;
        assert Glue(Split(s)) == [] + "\n" + Glue(rest);
      } else {
        var lines := Split(s);
        assert lines[1..] == rest[1..];
        if |rest| > 1 { assert lines[0] + "\n" + Glue(lines[1..]) == [s[0]] + (rest[0] + "\n" + Glue(rest[1..])); }
        forall l | l in lines ensures '\n' !in l { assert l == lines[0] || l in rest; }
      }
    }
  }

  lemma {:induction false} GlueSplits(lines: seq<string>)
    requires lines != [] && forall l :: l in lines ==> '\n' !in l
    ensures Split(Glue(lines)) == lines
    decreases |lines|
  {
    if |lines| == 1 {
      OneLine(lines[0]);
      assert lines == [lines[0]];
    } else {
      GlueSplits(lines[1..]);
      SplitLine(lines[0], Glue(lines[1..]));
      assert lines == [lines[0]] + lines[1..];
    }
  }

  lemma {:induction false} OneLine(line: string)
    requires '\n' !in line
    ensures Split(line) == [line]
    decreases |line|
  {
    if line != [] {
      OneLine(line[1..]);
      assert line[0] in line && [line[0]] + line[1..] == line;
    }
  }

  /** A text has one reading as lines, and the splitter finds it. */
  lemma SplitExactly(s: string, lines: seq<string>)
    ensures Split(s) == lines <==> AreLines(s, lines)
  {
    SplitGlues(s);
    if AreLines(s, lines) { GlueSplits(lines); }
  }

  // ---- Words -------------------------------------------------------------

  /** Space, tab, carriage return, vertical tab and form feed. */
  predicate BlankChar(c: char) { c as int == 32 || c as int == 9 || 11 <= c as int <= 13 }

  predicate Blank(s: string) { forall c :: c in s ==> BlankChar(c) }

  predicate Solid(s: string) { s != [] && forall c :: c in s ==> !BlankChar(c) }

  lemma SpaceExactly(c: char)
    ensures IsSpace(c) <==> BlankChar(c)
  {
  }

  /** The first word stands behind blanks, and the others are apart from it. */
  ghost predicate StartsWith(s: string, parts: seq<string>, gap: string, rest: string)
    decreases |parts|, 0
  {
    && parts != [] && s == gap + parts[0] + rest && Blank(gap) && Solid(parts[0])
    && (rest != [] ==> BlankChar(rest[0])) && Spelled(rest, parts[1..])
  }

  /** The words in order, with blanks around them and at least one between any two. */
  ghost predicate Spelled(s: string, parts: seq<string>)
    decreases |parts|, 1
  {
    if parts == [] then Blank(s) else exists gap, rest :: StartsWith(s, parts, gap, rest)
  }

  lemma {:induction false} RunIsSolid(s: string)
    ensures forall c :: c in s[..RunLength(s)] ==> !BlankChar(c)
    ensures RunLength(s) < |s| ==> BlankChar(s[RunLength(s)])
    decreases |s|
  {
    if s != [] && !IsSpace(s[0]) {
      RunIsSolid(s[1..]);
      assert s[..RunLength(s)] == [s[0]] + s[1..][..RunLength(s[1..])];
    }
  }

  lemma {:induction false} WordsSpell(s: string)
    ensures Spelled(s, Words(s))
    decreases |s|
  {
    var parts := Words(s);
    if s != [] && IsSpace(s[0]) {
      WordsSpell(s[1..]);
      assert s == [s[0]] + s[1..];
      if parts != [] {
        var gap, rest :| StartsWith(s[1..], parts, gap, rest);
        assert s == ([s[0]] + gap) + parts[0] + rest;
        assert StartsWith(s, parts, [s[0]] + gap, rest);
      }
    } else if s != [] {
      var n := RunLength(s);
      RunIsSolid(s);
      WordsSpell(s[n..]);
      assert parts[1..] == Words(s[n..]) && s == [] + s[..n] + s[n..];
      assert StartsWith(s, parts, [], s[n..]);
    }
  }

  /** The first character tells whether blanks come first. */
  lemma FirstCharacter(s: string, parts: seq<string>, gap: string, rest: string)
    requires StartsWith(s, parts, gap, rest)
    ensures s != [] && (gap == [] <==> !BlankChar(s[0]))
  {
    if gap == [] {
      assert s[0] == parts[0][0] && parts[0][0] in parts[0];
    } else {
      assert s[0] == gap[0] && gap[0] in gap;
    }
  }

  lemma {:induction false} SpellingIsWords(s: string, parts: seq<string>)
    requires Spelled(s, parts)
    ensures Words(s) == parts
    decreases |s|
  {
    if parts != [] {
      var gap, rest :| StartsWith(s, parts, gap, rest);
      FirstCharacter(s, parts, gap, rest);
    }
    if s == [] {
    } else if IsSpace(s[0]) {
      SpelledBehind(s, parts);
      SpellingIsWords(s[1..], parts);
    } else {
      assert s[0] in s && !BlankChar(s[0]);
      var gap, rest :| StartsWith(s, parts, gap, rest);
      FirstCharacter(s, parts, gap, rest);
      assert s == parts[0] + rest;
      RunToSpace(parts[0], rest);
      assert s[..|parts[0]|] == parts[0] && s[|parts[0]|..] == rest;
      SpellingIsWords(rest, parts[1..]);
      assert parts == [parts[0]] + parts[1..];
    }
  }

  lemma SpelledBehind(s: string, parts: seq<string>)
    requires Spelled(s, parts) && s != [] && BlankChar(s[0])
    ensures Spelled(s[1..], parts)
  {
    if parts != [] {
      var gap, rest :| StartsWith(s, parts, gap, rest);
      FirstCharacter(s, parts, gap, rest);
      assert s[1..] == gap[1..] + parts[0] + rest;
      assert StartsWith(s[1..], parts, gap[1..], rest);
    }
  }

  /** A line has one reading as words, and the reader finds it. */
  lemma WordsExactly(s: string, parts: seq<string>)
    ensures Words(s) == parts <==> Spelled(s, parts)
  {
    WordsSpell(s);
    if Spelled(s, parts) { SpellingIsWords(s, parts); }
  }

  // ---- Fields and records --------------------------------------------------

  const DIGITS := "0123456789ABCDEF"
  const SMALL_DIGITS := "0123456789abcdef"

  /** A hexadecimal digit stands at its value in one of the two alphabets. */
  lemma DigitExactly(c: char)
    ensures IsHexDigit(c) <==> c in DIGITS || c in SMALL_DIGITS
    ensures IsHexDigit(c) ==> DIGITS[DigitValue(c)] == c || SMALL_DIGITS[DigitValue(c)] == c
  {
    if IsHexDigit(c) {
      var v := DigitValue(c);
      assert if '0' <= c <= '9' then c as int == 48 + v else if 'A' <= c <= 'F' then c as int == 55 + v else c as int == 87 + v;
    }
  }

  predicate IsField(token: string, digits: nat) {
    1 <= |token| <= digits && forall c :: c in token ==> c in DIGITS || c in SMALL_DIGITS
  }

  lemma FieldExactly(token: string, digits: nat)
    ensures HexField(token, digits) <==> IsField(token, digits)
    ensures IsField(token, digits) ==> AllHex(token)
  {
    forall c ensures IsHexDigit(c) <==> c in DIGITS || c in SMALL_DIGITS { DigitExactly(c); }
    if AllHex(token) {
      forall c | c in token ensures c in DIGITS || c in SMALL_DIGITS { var i :| 0 <= i < |token| && token[i] == c; }
    }
    if forall c :: c in token ==> c in DIGITS || c in SMALL_DIGITS {
      forall i | 0 <= i < |token| ensures IsHexDigit(token[i]) { assert token[i] in token; }
    }
  }

  /** Longer than the reader's buffer, or no carriage return among its first 129 characters and longer than 128. */
  predicate TooLong(line: string) { |line| > 159 || (|line| > 128 && '\r' !in line[..129]) }

  lemma {:induction false} FindFirst(s: string, c: char, n: nat)
    requires n <= |s|
    ensures Find(s, c) < n <==> c in s[..n]
    decreases n
  {
    if n > 0 && s[0] != c {
      FindFirst(s[1..], c, n - 1);
      assert s[..n] == [s[0]] + s[1..][..n-1];
    }
  }

  lemma TooLongExactly(line: string)
    ensures TooLong(line) <==> |line| > PHYSICAL_LINE_MAX || Find(line, '\r') > LINE_MAX
  {
    if |line| > 128 { FindFirst(line, '\r', 129); }
  }

  /** The function with one more range. */
  function WithRange(f: FuncId, start: int, length: int): FuncId { FuncId(f.entry, f.crc, f.ranges + [Range(start, length)]) }

  /** What a line of these words does to what has been read; `None` rejects the manifest. */
  function Effect(st: Scan, parts: seq<string>): Option<Scan> {
    if parts == [] then Some(st)
    else if parts[0] == "P" then
      if |parts| == 2 && IsField(parts[1], 16) then
        FieldExactly(parts[1], 16);
        Some(Scan(st.pairIds + [Value(parts[1])], st.funcs))
      else None
    else if parts[0] == "F" then
      if |parts| == 3 && IsField(parts[1], 8) && IsField(parts[2], 8) then
        FieldExactly(parts[1], 8); FieldExactly(parts[2], 8);
        Some(Scan(st.pairIds, st.funcs + [FuncId(Value(parts[1]) % 0x2000_0000 + 0x8000_0000, Value(parts[2]), [])]))
      else None
    else if parts[0] == "R" && st.funcs != [] then
      if |parts| == 3 && IsField(parts[1], 8) && IsField(parts[2], 8) then
        FieldExactly(parts[1], 8); FieldExactly(parts[2], 8);
        Some(Scan(st.pairIds, st.funcs[|st.funcs|-1 := WithRange(st.funcs[|st.funcs|-1], Value(parts[1]), Value(parts[2]))]))
      else None
    else Some(st)
  }

  lemma RangeGrows(funcs: seq<FuncId>, f: FuncId)
    requires funcs != []
    ensures funcs[..|funcs|-1] + [f] == funcs[|funcs|-1 := f]
  {
  }

  /** One record, from its characters to its effect. */
  lemma RecordExactly(st: Scan, line: string, parts: seq<string>)
    requires Spelled(line, parts)
    ensures ReadRecord(st, line) == if TooLong(line) then None else Effect(st, parts)
  {
    TooLongExactly(line);
    WordsExactly(line, parts);
    if |parts| > 1 {
      FieldExactly(parts[1], 16);
      FieldExactly(parts[1], 8);
    }
    if |parts| > 2 { FieldExactly(parts[2], 8); }
    if st.funcs != [] && |parts| == 3 && IsField(parts[1], 8) && IsField(parts[2], 8) {
      RangeGrows(st.funcs, WithRange(st.funcs[|st.funcs|-1], Value(parts[1]), Value(parts[2])));
    }
  }

  // ---- Provenance --------------------------------------------------------------

  /** The line says this behind the prefix; one carriage return at its end is not part of it. */
  predicate Declares(line: string, said: string) { SaysBehind(PROVENANCE_PREFIX, line, said) }

  predicate SaysBehind(prefix: string, line: string, said: string) {
    || (line == prefix + said && (said == [] || said[|said|-1] != '\r'))
    || line == prefix + said + "\r"
  }

  /** The line without a carriage return at its end. */
  function Cut(line: string): string { if line != [] && line[|line|-1] == '\r' then line[..|line|-1] else line }

  function Said(prefix: string, line: string): seq<string> { if prefix <= Cut(line) then [Cut(line)[|prefix|..]] else [] }

  lemma SaidExactly(prefix: string, line: string, said: string)
    requires prefix != [] && prefix[|prefix|-1] != '\r'
    ensures Said(prefix, line) == [said] <==> SaysBehind(prefix, line, said)
  {
    if Said(prefix, line) == [said] {
      assert Cut(line) == prefix + said;
      if Cut(line) == line && said != [] { assert line[|line|-1] == said[|said|-1]; }
      if Cut(line) != line { assert line == Cut(line) + "\r"; }
    }
    if line == prefix + said && (said == [] || said[|said|-1] != '\r') {
      assert line[|line|-1] == if said == [] then prefix[|prefix|-1] else said[|said|-1];
      assert Cut(line) == line && line[|prefix|..] == said;
    }
    if line == prefix + said + "\r" { assert Cut(line) == prefix + said && Cut(line)[|prefix|..] == said; }
  }

  predicate DeclaresAt(lines: seq<string>, i: nat, said: string) { i < |lines| && Declares(lines[i], said) }

  /** Only one line says anything, and it says this. */
  ghost predicate OnlySays(lines: seq<string>, said: string) {
    exists i: nat :: DeclaresAt(lines, i, said) && forall j: nat, other :: DeclaresAt(lines, j, other) ==> j == i
  }

  lemma LineSays(line: string, said: string)
    ensures Said(PROVENANCE_PREFIX, line) == [said] <==> Declares(line, said)
  {
    PrefixEnd();
    SaidExactly(PROVENANCE_PREFIX, line, said);
  }

  lemma NothingSaid(lines: seq<string>)
    requires FoundProvenances(lines) == []
    ensures forall i: nat, said :: !DeclaresAt(lines, i, said)
    decreases |lines|
  {
    if lines != [] {
      var line, rest := lines[0], lines[1..];
      FirstFound(lines);
      NothingSaid(rest);
      forall i: nat, said ensures !DeclaresAt(lines, i, said) {
        LineSays(line, said);
        if i > 0 { assert !DeclaresAt(rest, i - 1, said); }
      }
    }
  }

  lemma FirstFound(lines: seq<string>)
    requires lines != []
    ensures FoundProvenances(lines) == Said(PROVENANCE_PREFIX, lines[0]) + FoundProvenances(lines[1..])
  {
  }

  /** One provenance is found exactly when one line has it and no other line any. */
  lemma {:induction false} OnlyFound(lines: seq<string>, said: string)
    ensures FoundProvenances(lines) == [said] <==> OnlySays(lines, said)
    decreases |lines|
  {
    if lines != [] {
      var line, rest := lines[0], lines[1..];
      FirstFound(lines);
      LineSays(line, said);
      if Said(PROVENANCE_PREFIX, line) == [] { NoneInLine(line); SkipLine(lines, said); OnlyFound(rest, said); } else { OnlyFirst(lines, said); }
    }
  }

  lemma NoneInLine(line: string)
    requires Said(PROVENANCE_PREFIX, line) == []
    ensures forall other :: !Declares(line, other)
  {
    forall other ensures !Declares(line, other) { LineSays(line, other); }
  }

  lemma SkipLine(lines: seq<string>, said: string)
    requires lines != [] && forall other :: !Declares(lines[0], other)
    ensures OnlySays(lines, said) <==> OnlySays(lines[1..], said)
  {
    var rest := lines[1..];
    if OnlySays(lines, said) {
      var i: nat :| DeclaresAt(lines, i, said) && forall j: nat, other :: DeclaresAt(lines, j, other) ==> j == i;
      forall j: nat, other | DeclaresAt(rest, j, other) ensures j == i - 1 { assert DeclaresAt(lines, j + 1, other); }
      assert DeclaresAt(rest, i - 1, said);
    }
    if OnlySays(rest, said) {
      var i: nat :| DeclaresAt(rest, i, said) && forall j: nat, other :: DeclaresAt(rest, j, other) ==> j == i;
      forall j: nat, other | DeclaresAt(lines, j, other) ensures j == i + 1 { assert DeclaresAt(rest, j - 1, other); }
      assert DeclaresAt(lines, i + 1, said);
    }
  }

  lemma OnlyFirst(lines: seq<string>, said: string)
    requires lines != [] && Said(PROVENANCE_PREFIX, lines[0]) != []
    ensures FoundProvenances(lines) == [said] <==> OnlySays(lines, said)
  {
    var line, rest, x := lines[0], lines[1..], Said(PROVENANCE_PREFIX, lines[0])[0];
    FirstFound(lines);
    LineSays(line, x);
    assert Said(PROVENANCE_PREFIX, line) == [x] && DeclaresAt(lines, 0, x);
    if FoundProvenances(lines) == [said] {
      assert FoundProvenances(lines)[0] == x;
      assert FoundProvenances(rest) == [] && x == said;
      NothingSaid(rest);
      forall j: nat, other | DeclaresAt(lines, j, other) ensures j == 0 {
        if j > 0 { assert DeclaresAt(rest, j - 1, other); }
      }
    }
    if OnlySays(lines, said) {
      var i: nat :| DeclaresAt(lines, i, said) && forall j: nat, other :: DeclaresAt(lines, j, other) ==> j == i;
      LineSays(line, said);
      if FoundProvenances(rest) != [] {
        var other, j := FoundIsSaid(rest);
        assert DeclaresAt(lines, j + 1, other);
      }
    }
  }

  lemma FoundIsSaid(lines: seq<string>) returns (said: string, i: nat)
    requires FoundProvenances(lines) != []
    ensures DeclaresAt(lines, i, said)
    decreases |lines|
  {
    FirstFound(lines);
    if Said(PROVENANCE_PREFIX, lines[0]) != [] {
      said := SaysSomething(lines[0]);
      i := 0;
    } else {
      said, i := FoundIsSaid(lines[1..]);
      i := i + 1;
    }
  }

  lemma SaysSomething(line: string) returns (said: string)
    requires Said(PROVENANCE_PREFIX, line) != []
    ensures Declares(line, said)
  {
    said := Said(PROVENANCE_PREFIX, line)[0];
    LineSays(line, said);
  }

  /** A manifest has one of the two known provenances exactly when a single line declares anything, and declares that. */
  lemma ProvenanceExactly(manifest: string, lines: seq<string>, said: string)
    requires AreLines(manifest, lines)
    ensures Provenance(manifest) == Some(said) <==> (said == "hosted-v1" || said == "orphan-v1") && OnlySays(lines, said)
    ensures DeclaresProvenance(manifest) <==> exists i: nat, other :: DeclaresAt(lines, i, other)
  {
    SplitExactly(manifest, lines);
    OnlyFound(lines, said);
    if FoundProvenances(lines) == [] { NothingSaid(lines); } else { var other, i := FoundIsSaid(lines); }
  }

  lemma PrefixEnd()
    ensures PROVENANCE_PREFIX != [] && PROVENANCE_PREFIX[|PROVENANCE_PREFIX|-1] == ' '
  {
  }

  // ---- Acceptance ------------------------------------------------------------

  /** The range is not empty and ends within two megabytes. */
  predicate InRam(r: Range) { r.length > 0 && r.start % 0x2000_0000 + r.length <= 0x20_0000 }

  /** One to sixteen such ranges, one of which holds the entry. */
  predicate Usable(f: FuncId) {
    && 1 <= |f.ranges| <= 16 && (forall r :: r in f.ranges ==> InRam(r))
    && exists r :: r in f.ranges && r.start % 0x2000_0000 <= f.entry % 0x2000_0000 < r.start % 0x2000_0000 + r.length
  }

  /** At most one pair id, and one where it is asked for; at least one function, all usable, no two with one entry. */
  ghost predicate IsUsable(st: Scan, requirePair: bool) {
    && |st.pairIds| <= 1 && (requirePair ==> |st.pairIds| == 1) && |st.funcs| >= 1
    && (forall i :: 0 <= i < |st.funcs| ==> Usable(st.funcs[i]))
    && forall i, j :: 0 <= i < j < |st.funcs| ==> st.funcs[i].entry % 0x2000_0000 != st.funcs[j].entry % 0x2000_0000
  }

  lemma UsableExactly(f: FuncId)
    ensures Representable(f) <==> Usable(f)
  {
    if Representable(f) {
      var r :| r in f.ranges && Contains(r, f.entry);
      assert r.start % 0x2000_0000 <= f.entry % 0x2000_0000 < r.start % 0x2000_0000 + r.length;
    }
    if Usable(f) {
      forall r | r in f.ranges ensures RangeInRam(r) { assert InRam(r); }
      var r :| r in f.ranges && r.start % 0x2000_0000 <= f.entry % 0x2000_0000 < r.start % 0x2000_0000 + r.length;
      assert Contains(r, f.entry);
    }
  }

  /** Everything that has been read is accepted together, or nothing is. */
  lemma AcceptedExactly(st: Scan, requirePair: bool)
    ensures Accept(st, requirePair) ==
      if IsUsable(st, requirePair) then Parsed(if st.pairIds == [] then None else Some(st.pairIds[0]), st.funcs) else Parsed(None, [])
  {
    forall f ensures Representable(f) <==> Usable(f) { UsableExactly(f); }
    if IsUsable(st, requirePair) {
      forall f | f in st.funcs ensures Representable(f) { var i :| 0 <= i < |st.funcs| && st.funcs[i] == f; }
    }
  }

  /** The records read one after the other; a rejected one rejects all. */
  ghost predicate ReadAll(lines: seq<string>, st: Scan, last: Option<Scan>)
    decreases |lines|
  {
    if lines == [] then last == Some(st)
    else exists parts :: Spelled(lines[0], parts) && ReadOn(lines, st, parts, last)
  }

  ghost predicate ReadOn(lines: seq<string>, st: Scan, parts: seq<string>, last: Option<Scan>)
    requires lines != []
    decreases |lines|, 0
  {
    if TooLong(lines[0]) || Effect(st, parts).None? then last == None else ReadAll(lines[1..], Effect(st, parts).value, last)
  }

  lemma {:induction false} ReadExactly(lines: seq<string>, st: Scan, last: Option<Scan>)
    ensures ReadRecords(st, lines) == last <==> ReadAll(lines, st, last)
    decreases |lines|
  {
    if lines != [] {
      var words := Words(lines[0]);
      WordsSpell(lines[0]);
      RecordExactly(st, lines[0], words);
      var next := ReadRecord(st, lines[0]);
      if next.Some? { ReadExactly(lines[1..], next.value, last); }
      forall parts | Spelled(lines[0], parts) ensures parts == words { SpellingIsWords(lines[0], parts); }
      assert ReadRecords(st, lines) == last <==> ReadOn(lines, st, words, last);
    }
  }

  /** The whole reader: the lines of a text without NUL, their words, their records, and the runtime's conditions. */
  lemma ParseExactly(manifest: string, lines: seq<string>, last: Option<Scan>, requirePair: bool)
    requires AreLines(manifest, lines) && ReadAll(lines, Scan([], []), last)
    ensures Parse(manifest, requirePair) ==
      if '\0' !in manifest && last.Some? && IsUsable(last.value, requirePair)
      then Parsed(if last.value.pairIds == [] then None else Some(last.value.pairIds[0]), last.value.funcs)
      else Parsed(None, [])
  {
    SplitExactly(manifest, lines);
    ReadExactly(lines, Scan([], []), last);
    if last.Some? { AcceptedExactly(last.value, requirePair); }
  }
}
