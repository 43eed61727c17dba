/**
 The texts the array reader accepts: the array grammar of section 5 of RFC 8259 over objects, with blanks
 around every token and one optional comma behind the last object.
 */
module JsonGrammar {
  import opened Prelude
  import opened JsonObject
  import opened JsonArray
  import opened JsonScan

  /** One object between its blanks. */
  datatype Item = Item(before: string, text: string, after: string)

  datatype Array = Array(lead: string, items: seq<Item>, comma: bool, close: string, tail: string)

  predicate IsItem(i: Item) { Blank(i.before) && Blank(i.after) && ObjectLength(i.text) == Some(|i.text|) }

  predicate AreItems(items: seq<Item>) { forall i :: 0 <= i < |items| ==> IsItem(items[i]) }

  function Texts(items: seq<Item>): seq<string> {
    seq(|items|, i requires 0 <= i < |items| => items[i].text)
  }

  /** The text from some item on; `first` when no comma is due before it. */
  function RenderFrom(items: seq<Item>, comma: bool, close: string, tail: string, first: bool): string {
    if items == [] then (if comma && !first then "," else "") + close + "]" + tail
    else
      (if first then "" else ",") + items[0].before + items[0].text + items[0].after
      + RenderFrom(items[1..], comma, close, tail, false)
  }

  predicate IsArray(d: Array) {
    && Blank(d.lead) && Blank(d.close) && Blank(d.tail) && AreItems(d.items)
    && (if d.items == [] then !d.comma else d.comma || d.close == "")
  }

  function Render(d: Array): string { d.lead + "[" + RenderFrom(d.items, d.comma, d.close, d.tail, true) }

  // ---- Everything in the grammar is read ------------------------------------

  lemma StripBlank(blank: string, rest: string)
    requires Blank(blank)
    ensures Strip(blank + rest) == Strip(rest)
  {
    StripAppend(blank, rest);
  }

  lemma ItemsBehindBlank(blank: string, rest: string, expectValue: bool)
    requires Blank(blank)
    ensures Items(blank + rest, expectValue) == Items(rest, expectValue)
  {
    StripBlank(blank, rest);
    ItemsStripped(blank + rest, expectValue);
    ItemsStripped(rest, expectValue);
  }

  lemma ItemsAtObject(text: string, rest: string)
    requires ObjectLength(text) == Some(|text|)
    ensures Items(text + rest, true) == Yield(text, Items(rest, false))
  {
    var s := text + rest;
    ObjectExtends(text, rest);
    assert s[0] == text[0] == '{';
    assert Strip(s) == s;
    assert s[..|text|] == text && s[|text|..] == rest;
  }

  lemma ItemsAtComma(rest: string)
    ensures Items("," + rest, false) == Items(rest, true)
  {
    var s := "," + rest;
    assert s[0] == ',' && s[1..] == rest;
    assert Strip(s) == s;
  }

  lemma ItemsAtEnd(close: string, tail: string, expectValue: bool)
    requires Blank(close) && Blank(tail)
    ensures Items(close + "]" + tail, expectValue) == Outcome([], true)
  {
    var s := "]" + tail;
    assert close + "]" + tail == close + s;
    assert s[0] == ']' && s[1..] == tail;
    assert Strip(s) == s;
    ItemsBehindBlank(close, s, expectValue);
  }

  lemma RenderedFirst(items: seq<Item>, comma: bool, close: string, tail: string)
    requires items != []
    ensures RenderFrom(items, comma, close, tail, false) == "," + RenderFrom(items, comma, close, tail, true)
    ensures RenderFrom(items, comma, close, tail, true) ==
      items[0].before + (items[0].text + (items[0].after + RenderFrom(items[1..], comma, close, tail, false)))
  {
  }

  lemma ReadsFirst(i: Item, rest: string)
    requires IsItem(i)
    ensures Items(i.before + (i.text + (i.after + rest)), true) == Yield(i.text, Items(rest, false))
  {
    ItemsBehindBlank(i.before, i.text + (i.after + rest), true);
    ItemsAtObject(i.text, i.after + rest);
    ItemsBehindBlank(i.after, rest, false);
  }

  lemma {:induction false} RenderedReads(items: seq<Item>, comma: bool, close: string, tail: string, first: bool)
    requires AreItems(items) && Blank(close) && Blank(tail)
    ensures Items(RenderFrom(items, comma, close, tail, first), first) == Outcome(Texts(items), true)
    decreases |items|, !first
  {
    var text := RenderFrom(items, comma, close, tail, first);
    if items == [] {
      if comma && !first {
        assert text == "," + (close + "]" + tail);
        ItemsAtComma(close + "]" + tail);
        ItemsAtEnd(close, tail, true);
      } else {
        assert text == close + "]" + tail;
        ItemsAtEnd(close, tail, first);
      }
    } else if !first {
      RenderedFirst(items, comma, close, tail);
      ItemsAtComma(RenderFrom(items, comma, close, tail, true));
      RenderedReads(items, comma, close, tail, true);
    } else {
      RenderedFirst(items, comma, close, tail);
      ReadsFirst(items[0], RenderFrom(items[1..], comma, close, tail, false));
      RenderedReads(items[1..], comma, close, tail, false);
      assert Texts(items) == [items[0].text] + Texts(items[1..]);
    }
  }

  /** Every array of the grammar is accepted, with its objects in order. */
  lemma GrammarIsRead(d: Array)
    requires IsArray(d)
    ensures Parse(Render(d)) == Outcome(Texts(d.items), true)
  {
    var rest := RenderFrom(d.items, d.comma, d.close, d.tail, true);
    var s := "[" + rest;
    assert Render(d) == d.lead + s;
    StripBlank(d.lead, s);
    assert s[0] == '[' && s[1..] == rest;
    assert Strip(s) == s;
    RenderedReads(d.items, d.comma, d.close, d.tail, true);
  }

  // ---- Everything that is read is in the grammar ----------------------------

  lemma {:induction false} BlankPrefix(s: string)
    ensures var n := |s| - |Strip(s)|; Blank(s[..n]) && s == s[..n] + Strip(s)
    decreases |s|
  {
    if s != [] && IsSpace(s[0]) {
      var rest := s[1..];
      BlankPrefix(rest);
      var n := |rest| - |Strip(rest)|;
      assert s[..n+1] == [s[0]] + rest[..n];
    }
  }

  /** What is read from some item on, with the blanks before a comma or the end when no value is due. */
  datatype Derivation = Derivation(pre: string, items: seq<Item>, comma: bool, close: string, tail: string)

  predicate Derives(v: Derivation, text: string, first: bool, objects: seq<string>) {
    && Blank(v.pre) && Blank(v.close) && Blank(v.tail) && AreItems(v.items) && (first ==> v.pre == "")
    && text == v.pre + RenderFrom(v.items, v.comma, v.close, v.tail, first)
    && Texts(v.items) == objects
    && (first && v.items == [] ==> !v.comma) && ((v.items != [] || !first) && !v.comma ==> v.close == "")
  }

  lemma DeriveEnd(text: string, first: bool, blank: string, tail: string) returns (v: Derivation)
    requires Blank(blank) && Blank(tail) && text == blank + "]" + tail
    ensures Derives(v, text, first, [])
  {
    v := if first then Derivation("", [], false, blank, tail) else Derivation(blank, [], false, "", tail);
    assert RenderFrom(v.items, v.comma, v.close, v.tail, first) == v.close + "]" + tail;
  }

  lemma DeriveComma(text: string, blank: string, rest: string, objects: seq<string>, w: Derivation) returns (v: Derivation)
    requires Blank(blank) && text == blank + "," + rest && Derives(w, rest, true, objects)
    ensures Derives(v, text, false, objects)
  {
    v := Derivation(blank, w.items, w.comma || w.items == [], w.close, w.tail);
    assert RenderFrom(v.items, v.comma, v.close, v.tail, false) == "," + rest;
  }

  lemma DeriveObject(text: string, blank: string, item: string, rest: string, objects: seq<string>, w: Derivation)
    returns (v: Derivation)
    requires Blank(blank) && text == blank + item + rest && ObjectLength(item) == Some(|item|) && Derives(w, rest, false, objects)
    ensures Derives(v, text, true, [item] + objects)
  {
    var first := Item(blank, item, w.pre);
    v := Derivation("", [first] + w.items, w.comma, w.close, w.tail);
    assert v.items[1..] == w.items;
    assert Texts(v.items) == [item] + Texts(w.items);
  }

  /** The three ways on from an accepted text. */
  lemma AcceptedCases(text: string, first: bool, s: string)
    requires s == Strip(text) && Items(text, first).accepted
    ensures s != []
    ensures s[0] == ']' ==> Blank(s[1..]) && Items(text, first).objects == []
    ensures s[0] != ']' && !first ==> s[0] == ',' && Items(text, first) == Items(s[1..], true)
    ensures s[0] != ']' && first ==>
      ObjectLength(s).Some? && Items(text, first) == Yield(s[..ObjectLength(s).value], Items(s[ObjectLength(s).value..], false))
  {
  }

  /** The blanks, and the character behind them. */
  lemma Headed(text: string, s: string, c: char) returns (blank: string)
    requires s == Strip(text) && s != [] && s[0] == c
    ensures Blank(blank) && text == blank + [c] + s[1..] && |s[1..]| < |text|
  {
    BlankPrefix(text);
    blank := text[..|text| - |s|];
    assert s == [c] + s[1..];
  }

  /** The blanks, and the object behind them. */
  lemma ObjectHeaded(text: string, s: string) returns (blank: string, head: string, rest: string)
    requires s == Strip(text) && ObjectLength(s).Some?
    ensures head == s[..ObjectLength(s).value] && rest == s[ObjectLength(s).value..] && |rest| < |text|
    ensures Blank(blank) && text == blank + head + rest && ObjectLength(head) == Some(|head|)
  {
    var n := ObjectLength(s).value;
    BlankPrefix(text);
    blank, head, rest := text[..|text| - |s|], s[..n], s[n..];
    assert s == head + rest;
    ObjectShrinks(head, rest);
  }

  lemma {:induction false} ReadDerives(text: string, first: bool) returns (v: Derivation)
    requires Items(text, first).accepted
    ensures Derives(v, text, first, Items(text, first).objects)
    decreases |text|, first
  {
    var s := Strip(text);
    AcceptedCases(text, first, s);
    if s[0] == ']' {
      var blank := Headed(text, s, ']');
      v := DeriveEnd(text, first, blank, s[1..]);
    } else if !first {
      var blank := Headed(text, s, ',');
      var w := ReadDerives(s[1..], true);
      v := DeriveComma(text, blank, s[1..], Items(s[1..], true).objects, w);
    } else {
      var blank, head, rest := ObjectHeaded(text, s);
      var w := ReadDerives(rest, false);
      v := DeriveObject(text, blank, head, rest, Items(rest, false).objects, w);
    }
  }

  lemma ArrayOf(text: string, blank: string, rest: string, objects: seq<string>, v: Derivation) returns (d: Array)
    requires Blank(blank) && text == blank + "[" + rest && Derives(v, rest, true, objects)
    ensures IsArray(d) && Render(d) == text && Texts(d.items) == objects
  {
    d := Array(blank, v.items, v.comma, v.close, v.tail);
    assert rest == RenderFrom(v.items, v.comma, v.close, v.tail, true);
  }

  /** Every accepted text is an array of the grammar over the yielded objects. */
  lemma ReadIsGrammar(text: string) returns (d: Array)
    requires Parse(text).accepted
    ensures IsArray(d) && Render(d) == text && Texts(d.items) == Parse(text).objects
  {
    var s := Strip(text);
    BlankPrefix(text);
    assert s == "[" + s[1..];
    var v := ReadDerives(s[1..], true);
    d := ArrayOf(text, text[..|text| - |s|], s[1..], Parse(text).objects, v);
  }

  // ---- Down to the characters -------------------------------------------------

  /** The array grammar with its objects spelled out by the grammar of JSON values. */
  ghost predicate IsJsonArray(d: Array) {
    && Blank(d.lead) && Blank(d.close) && Blank(d.tail)
    && (forall i :: 0 <= i < |d.items| ==> Blank(d.items[i].before) && Blank(d.items[i].after) && PrintsObject(d.items[i].text))
    && (if d.items == [] then !d.comma else d.comma || d.close == "")
  }

  lemma SameArrays(d: Array)
    ensures IsArray(d) <==> IsJsonArray(d)
  {
    forall i | 0 <= i < |d.items| ensures PrintsObject(d.items[i].text) <==> ObjectLength(d.items[i].text) == Some(|d.items[i].text|) {
      var text := d.items[i].text;
      assert text[..|text|] == text;
      ScannerIsGrammar(text, |text|);
    }
  }

  /** A text is accepted with these objects exactly when it is an array of JSON objects in which they stand in order. */
  lemma AcceptedExactly(text: string, objects: seq<string>)
    ensures Parse(text) == Outcome(objects, true) <==>
            exists d :: IsJsonArray(d) && Render(d) == text && Texts(d.items) == objects
  {
    if Parse(text) == Outcome(objects, true) {
      var d := ReadIsGrammar(text);
      SameArrays(d);
    }
    if exists d :: IsJsonArray(d) && Render(d) == text && Texts(d.items) == objects {
      var d :| IsJsonArray(d) && Render(d) == text && Texts(d.items) == objects;
      SameArrays(d);
      GrammarIsRead(d);
    }
  }

  // ---- Characters by their code points -----------------------------------------

  /** Blanks, digits and escapes are those of sections 2, 6 and 7 of RFC 8259. */
  lemma CharactersExactly(c: char)
    ensures IsBlank(c) <==> c as int in {0x20, 0x09, 0x0A, 0x0D}
    ensures IsDigit(c) <==> 0x30 <= c as int <= 0x39
    ensures IsHexDigit(c) <==> 0x30 <= c as int <= 0x39 || 0x41 <= c as int <= 0x46 || 0x61 <= c as int <= 0x66
    ensures IsEscape(c) <==> c as int in {0x22, 0x5C, 0x2F, 0x62, 0x66, 0x6E, 0x72, 0x74}
  {
  }

  /** Between the objects the reader strips what Unicode calls white space, and the four ASCII separators. */
  lemma SpacesExactly(c: char)
    ensures IsSpace(c) <==>
      (|| 0x09 <= c as int <= 0x0D || c as int == 0x20 || c as int == 0x85 || c as int == 0xA0 || c as int == 0x1680
       || 0x2000 <= c as int <= 0x200A || 0x2028 <= c as int <= 0x2029 || c as int == 0x202F || c as int == 0x205F
       || c as int == 0x3000 || 0x1C <= c as int <= 0x1F)
  {
  }
}
