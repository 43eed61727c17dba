/** _iter_json_array of the coverage vault: objects of a top-level array, read in chunks. */
module JsonArray {
  import opened Prelude
  import opened JsonObject

  /** `str.isspace` */
  predicate IsSpace(c: char) {
    var n := c as int;
    9 <= n <= 13 || 28 <= n <= 32 || n == 133 || n == 160 || n == 5760 || 8192 <= n <= 8202
    || n == 8232 || n == 8233 || n == 8239 || n == 8287 || n == 12288
  }

  predicate Blank(s: string) { forall i :: 0 <= i < |s| ==> IsSpace(s[i]) }

  /** `lstrip` */
  function Strip(s: string): (r: string)
    ensures |r| <= |s| && (r != [] ==> !IsSpace(r[0]))
    ensures r == [] <==> Blank(s)
  {
    if s == [] then [] else if IsSpace(s[0]) then Strip(s[1..]) else s
  }

  /** The objects yielded, as their texts, and whether the array was accepted in the end. */
  datatype Outcome = Outcome(objects: seq<string>, accepted: bool)

  const REJECTED := Outcome([], false)

  function Yield(item: string, rest: Outcome): Outcome { Outcome([item] + rest.objects, rest.accepted) }

  /** The outcome on all the text behind the opening bracket or behind an item. */
  function Items(text: string, expectValue: bool): Outcome
    decreases |text|, expectValue
  {
    var s := Strip(text);
    if s == [] then REJECTED
    else if s[0] == ']' then Outcome([], Blank(s[1..]))
    else if !expectValue then
      if s[0] == ',' then Items(s[1..], true) else REJECTED
    else
      var n := ObjectLength(s);
      if n.None? then REJECTED else Yield(s[..n.value], Items(s[n.value..], false))
  }

  /** The outcome of one whole-text read. */
  function Parse(text: string): Outcome {
    var s := Strip(text);
    if s == [] || s[0] != '[' then REJECTED else Items(s[1..], true)
  }

  // ---- Stripping and chunks -------------------------------------------------

  lemma {:induction false} StripAppend(s: string, more: string)
    ensures Strip(s) != [] ==> Strip(s + more) == Strip(s) + more
    ensures Strip(s) == [] ==> Strip(s + more) == Strip(more)
    decreases |s|
  {
    if s == [] {
      assert s + more == more;
    } else if IsSpace(s[0]) {
      assert (s + more)[0] == s[0] && (s + more)[1..] == s[1..] + more;
      StripAppend(s[1..], more);
    } else {
      assert (s + more)[0] == s[0];
    }
  }

  lemma StripTwice(s: string)
    ensures Strip(Strip(s)) == Strip(s)
  {
  }

  /** What the rest of the text means depends on what follows its leading blanks only. */
  lemma ItemsStripped(s: string, expectValue: bool)
    ensures Items(Strip(s), expectValue) == Items(s, expectValue)
  {
    StripTwice(s);
  }

  /** The file being read: `pos` characters of `text` have been handed out. */
  class Reader {
    const text: string
    const chunk: nat
    var pos: nat
    var buffer: string
    var eof: bool

    ghost predicate Valid()
      reads this
    {
      chunk >= 1 && pos <= |text| && (eof ==> pos == |text|)
    }

    /** The buffered text and the text still in the file. */
    ghost function Rest(): string
      reads this
      requires Valid()
    {
      buffer + text[pos..]
    }

    /** What is left to read: never more calls of `Fill` than this. */
    ghost function Left(): nat
      reads this
      requires Valid()
    {
      |text| - pos + if eof then 0 else 1
    }

    constructor (text: string, chunk: nat)
      requires chunk >= 1
      ensures Valid() && Rest() == text && this.chunk == chunk
    {
      this.text, this.chunk := text, chunk;
      pos, buffer, eof := 0, "", false;
      new;
      assert Rest() == text;
    }

    method Fill()
      requires Valid() && !eof
      modifies this
      ensures Valid() && Rest() == old(Rest()) && Left() < old(Left())
      ensures |buffer| >= |old(buffer)| && buffer[..|old(buffer)|] == old(buffer)
    {
      var end := if pos + chunk <= |text| then pos + chunk else |text|;
      if end > pos {
        assert text[pos..] == text[pos..end] + text[end..];
        buffer, pos := buffer + text[pos..end], end;
      } else {
        eof := true;
      }
    }

    /** Strip the buffer, which strips the rest as far as the buffer reaches. */
    method StripBuffer()
      requires Valid()
      modifies this`buffer
      ensures Valid() && buffer == Strip(old(buffer)) && buffer == Strip(buffer)
      ensures Strip(Rest()) == Strip(old(Rest())) && (buffer != [] ==> Rest() == Strip(old(Rest())))
    {
      StripAppend(buffer, text[pos..]);
      StripTwice(buffer);
      StripTwice(Rest());
      buffer := Strip(buffer);
      assert [] + text[pos..] == text[pos..];
    }

    /** Fill until the stripped buffer is non-empty or the text ends. */
    method SkipBlanks()
      requires Valid()
      modifies this
      ensures Valid() && Left() <= old(Left())
      ensures Rest() == Strip(old(Rest())) && buffer == Strip(buffer)
      ensures buffer == [] ==> Rest() == []
    {
      ghost var whole := Rest();
      StripBuffer();
      while buffer == [] && !eof
        invariant Valid() && Strip(Rest()) == Strip(whole) && Left() <= old(Left()) && buffer == Strip(buffer)
        invariant buffer != [] ==> Rest() == Strip(whole)
        decreases Left()
      {
        Fill();
        StripBuffer();
      }
    }

    /** Decode at the front of the buffer, filling while the decoder fails. */
    method DecodeObject(other: string -> bool) returns (n: Option<nat>)
      requires Valid() && buffer != []
      modifies this
      ensures Valid() && Rest() == old(Rest()) && Left() <= old(Left())
      ensures n == ObjectLength(Rest())
      ensures n.Some? ==> n.value <= |buffer|
    {
      while true
        invariant Valid() && Rest() == old(Rest()) && Left() <= old(Left()) && buffer != []
        decreases Left()
      {
        n := ObjectLength(buffer);
        if n.Some? {
          ObjectExtends(buffer, text[pos..]);
          return;
        }
        if buffer[0] != '{' && other(buffer) {
          return None;
        }
        if eof {
          assert buffer + text[pos..] == buffer;
          return None;
        }
        Fill();
      }
    }

    /** The whole array; `other` says whether the decoder takes a buffer that starts with no object. */
    method ReadArray(other: string -> bool) returns (r: Outcome)
      requires Valid()
      modifies this
      ensures r == Parse(old(Rest()))
    {
      SkipBlanks();
      if buffer == [] || buffer[0] != '[' { return REJECTED; }
      ghost var rest := Rest()[1..];
      buffer := buffer[1..];
      assert Rest() == rest;
      r := IterItems(other);
    }

    /** The loop over the items, behind the opening bracket. */
    method IterItems(other: string -> bool) returns (r: Outcome)
      requires Valid()
      modifies this
      ensures r == Items(old(Rest()), true)
    {
      var objects: seq<string> := [];
      var expectValue := true;
      ghost var whole := Rest();
      while true
        invariant Valid() && Prepend(objects, Items(Rest(), expectValue)) == Items(whole, true)
        decreases |Rest()|, expectValue
      {
        ItemsStripped(Rest(), expectValue);
        SkipBlanks();
        if buffer == [] { return Outcome(objects, false); }
        ghost var rest := Rest();
        if buffer[0] == ']' {
          var tail := buffer[1..] + text[pos..];
          assert tail == rest[1..];
          return Outcome(objects, Blank(tail));
        }
        if !expectValue {
          if buffer[0] != ',' { return Outcome(objects, false); }
          buffer, expectValue := buffer[1..], true;
          assert Rest() == rest[1..];
        } else {
          var n := DecodeObject(other);
          if n.None? { return Outcome(objects, false); }
          ghost var before := objects;
          PrependYield(before, rest[..n.value], Items(rest[n.value..], false));
          assert rest[..n.value] == buffer[..n.value] && rest[n.value..] == buffer[n.value..] + text[pos..];
          objects, buffer, expectValue := objects + [buffer[..n.value]], buffer[n.value..], false;
        }
      }
    }
  }

  function Prepend(objects: seq<string>, rest: Outcome): Outcome { Outcome(objects + rest.objects, rest.accepted) }

  lemma PrependYield(objects: seq<string>, item: string, rest: Outcome)
    ensures Prepend(objects, Yield(item, rest)) == Prepend(objects + [item], rest)
  {
  }

  /**
   _iter_json_array on a file of this text: neither the chunk size nor the decoder's verdict on other
   values has any influence on the objects or on acceptance.
   */
  method IterJsonArray(text: string, chunk: nat, other: string -> bool) returns (r: Outcome)
    requires chunk >= 1
    ensures r == Parse(text)
  {
    var reader := new Reader(text, chunk);
    r := reader.ReadArray(other);
  }
}
