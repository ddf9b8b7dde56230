/**
  The checkpoint as text (src/context/checkpoint.ts): its JSON, the UTF-8 bytes that are
  counted, and what the schema accepts. A printer of JSON takes the text that follows, and so
  every printer has a parser that undoes it.
 */
module CheckpointJson {
  import opened Wrappers
  import opened Checkpoints

  const PIN_MAX_BYTES := 4 * 1024
  const CHECKPOINT_MAX_BYTES := 128 * 1024

  // ----- UTF-8

  function CharBytes(c: char): (n: nat)
    ensures n >= 1
  {
    var code := c as int;
    if code < 0x80 then 1 else if code < 0x800 then 2 else if code < 0x1_0000 then 3 else 4
  }

  function ByteLength(s: string): nat {
    if s == [] then 0 else CharBytes(s[0]) + ByteLength(s[1..])
  }

  lemma {:induction false} BytesAtLeastChars(s: string)
    ensures |s| <= ByteLength(s)
  {
    if s != [] { BytesAtLeastChars(s[1..]); }
  }

  /** The bytes of one code point (section 3 of RFC 3629). */
  function Utf8(code: nat): (bytes: seq<nat>)
    requires code < 0x11_0000
  {
    if code < 0x80 then [code]
    else if code < 0x800 then [0xC0 + code / 64, 0x80 + code % 64]
    else if code < 0x1_0000 then [0xE0 + code / 64 / 64, 0x80 + code / 64 % 64, 0x80 + code % 64]
    else [0xF0 + code / 64 / 64 / 64, 0x80 + code / 64 / 64 % 64, 0x80 + code / 64 % 64, 0x80 + code % 64]
  }

  /** How many bytes a first byte announces. */
  function Announced(first: nat): nat {
    if first < 0x80 then 1 else if first < 0xE0 then 2 else if first < 0xF0 then 3 else 4
  }

  /** The code point at the front of the bytes, and the bytes after it. */
  function DecodeOne(bytes: seq<nat>): (result: Option<(nat, seq<nat>)>)
    ensures result.Some? ==> |result.value.1| < |bytes|
  {
    if bytes == [] || |bytes| < Announced(bytes[0]) then None
    else
      var n := Announced(bytes[0]);
      if (n == 2 && bytes[0] < 0xC0) || exists i :: 1 <= i < n && bytes[i] < 0x80 then None
      else Some((Value(bytes[..n]), bytes[n..]))
  }

  /** The first byte announces the length, and the others are read as they were written. */
  lemma DecodesBytes(bytes: seq<nat>, rest: seq<nat>)
    requires bytes != [] && |bytes| == Announced(bytes[0])
    requires |bytes| == 2 ==> bytes[0] >= 0xC0
    requires forall i :: 1 <= i < |bytes| ==> bytes[i] >= 0x80
    ensures DecodeOne(bytes + rest) == Some((Value(bytes), rest))
  {
    assert (bytes + rest)[|bytes|..] == rest && (bytes + rest)[..|bytes|] == bytes;
    assert forall i :: 0 <= i < |bytes| ==> (bytes + rest)[i] == bytes[i];
  }

  /** What one to four bytes stand for. */
  function Value(bytes: seq<nat>): nat
    requires bytes != [] && |bytes| == Announced(bytes[0])
    requires |bytes| == 2 ==> bytes[0] >= 0xC0
    requires forall i :: 1 <= i < |bytes| ==> bytes[i] >= 0x80
  {
    match |bytes|
    case 1 => bytes[0]
    case 2 => (bytes[0] - 0xC0) * 64 + (bytes[1] - 0x80)
    case 3 => (bytes[0] - 0xE0) * 4096 + (bytes[1] - 0x80) * 64 + (bytes[2] - 0x80)
    case _ => (bytes[0] - 0xF0) * 262144 + (bytes[1] - 0x80) * 4096 + (bytes[2] - 0x80) * 64 + (bytes[3] - 0x80)
  }

  lemma DecodesOne(code: nat, rest: seq<nat>)
    requires code < 0x11_0000
    ensures DecodeOne(Utf8(code) + rest) == Some((code, rest))
  {
    var q, p := code / 64, code / 64 / 64;
    assert code == q * 64 + code % 64 && q == p * 64 + q % 64 && p == p / 64 * 64 + p % 64;
    DecodesBytes(Utf8(code), rest);
  }

  function Encoded(s: string): seq<nat> {
    if s == [] then [] else Utf8(s[0] as int) + Encoded(s[1..])
  }

  /** The code points the bytes stand for, as far as they can be read. */
  function Decoded(bytes: seq<nat>): seq<nat>
    decreases |bytes|
  {
    var one := DecodeOne(bytes);
    if one.None? then [] else [one.value.0] + Decoded(one.value.1)
  }

  /** The code points of a text. */
  function Codes(s: string): seq<nat> {
    seq(|s|, i requires 0 <= i < |s| => s[i] as int)
  }

  lemma CodesFrom(s: string)
    requires s != []
    ensures Codes(s) == [s[0] as int] + Codes(s[1..])
  {
  }

  lemma DecodedFront(code: nat, rest: seq<nat>)
    requires code < 0x11_0000
    ensures Decoded(Utf8(code) + rest) == [code] + Decoded(rest)
  {
    DecodesOne(code, rest);
  }

  /** What is counted are the bytes of an encoding from which every character can be read back. */
  lemma {:induction false} BytesAreUtf8(s: string)
    ensures ByteLength(s) == |Encoded(s)|
    ensures Decoded(Encoded(s)) == Codes(s)
  {
    if s != [] {
      BytesAreUtf8(s[1..]);
      DecodedFront(s[0] as int, Encoded(s[1..]));
      CodesFrom(s);
    }
  }

  // ----- Strings in JSON

  const HEX := "0123456789abcdef"

  function Escape(c: char): (s: string)
    ensures |s| >= 1
  {
    var code := c as int;
    if c == '"' then ['\\', '"']
    else if c == '\\' then ['\\', '\\']
    else if code == 8 then ['\\', 'b']
    else if code == 9 then ['\\', 't']
    else if code == 10 then ['\\', 'n']
    else if code == 12 then ['\\', 'f']
    else if code == 13 then ['\\', 'r']
    else if code < 0x20 then ['\\', 'u', '0', '0', HEX[code / 16], HEX[code % 16]]
    else [c]
  }

  /** The characters of a string and its closing quote, before `rest`. */
  function CharsThen(s: string, rest: string): (text: string)
    ensures |text| >= |s| + 1 + |rest|
  {
    if s == [] then ['"'] + rest else Escape(s[0]) + CharsThen(s[1..], rest)
  }

  function StringThen(s: string, rest: string): (text: string)
    ensures |text| >= |s| + 2 + |rest|
  {
    ['"'] + CharsThen(s, rest)
  }

  function HexValue(c: char): Option<nat> {
    if '0' <= c <= '9' then Some(c as int - '0' as int)
    else if 'a' <= c <= 'f' then Some(c as int - 'a' as int + 10)
    else None
  }

  /** The character a backslash and `letter` stand for, the four-digit form excepted. */
  function Escaped(letter: char): Option<char> {
    match letter
    case '"' => Some('"')
    case '\\' => Some('\\')
    case 'b' => Some(8 as char)
    case 't' => Some(9 as char)
    case 'n' => Some(10 as char)
    case 'f' => Some(12 as char)
    case 'r' => Some(13 as char)
    case _ => None
  }

  /** The next character inside a string; control characters may only be there escaped. */
  function NextChar(text: string): (result: Option<(char, string)>)
    ensures result.Some? ==> |result.value.1| < |text|
  {
    if text == [] || text[0] == '"' || text[0] < 0x20 as char then None
    else if text[0] != '\\' then Some((text[0], text[1..]))
    else if |text| >= 2 && Escaped(text[1]).Some? then Some((Escaped(text[1]).value, text[2..]))
    else if |text| >= 6 && text[1..4] == ['u', '0', '0'] && HexValue(text[4]).Some? && HexValue(text[5]).Some?
    then Some(((HexValue(text[4]).value * 16 + HexValue(text[5]).value) as char, text[6..]))
    else None
  }

  function ParseChars(text: string): (result: Option<(string, string)>)
    ensures result.Some? ==> |result.value.1| < |text|
    decreases |text|
  {
    if text != [] && text[0] == '"' then Some(([], text[1..]))
    else
      var (c, more) :- NextChar(text);
      var (s, rest) :- ParseChars(more);
      Some(([c] + s, rest))
  }

  function ParseString(text: string): (result: Option<(string, string)>)
    ensures result.Some? ==> |result.value.1| < |text|
  {
    var more :- Expect(text, ['"']);
    ParseChars(more)
  }

  function Expect(text: string, token: string): (rest: Option<string>)
    ensures rest.Some? ==> |rest.value| + |token| == |text|
  {
    if token <= text then Some(text[|token|..]) else None
  }

  lemma Expected(token: string, rest: string)
    ensures Expect(token + rest, token) == Some(rest)
  {
    assert (token + rest)[|token|..] == rest;
  }

  /** Seven characters have a short escape, the other control characters the long one, and nothing else has any. */
  lemma EscapeSize(c: char)
    ensures |Escape(c)| == if c as int in {8, 9, 10, 12, 13, 34, 92} then 2 else if c as int < 32 then 6 else 1
  {
    assert '"' as int == 34 && '\\' as int == 92;
  }

  lemma HexDigits(n: nat)
    requires n < 16
    ensures HexValue(HEX[n]) == Some(n)
  {
  }

  lemma PlainReadBack(c: char, rest: string)
    requires c != '"' && c != '\\' && c as int >= 0x20
    ensures NextChar([c] + rest) == Some((c, rest))
  {
    assert ([c] + rest)[1..] == rest;
  }

  lemma ShortReadBack(letter: char, rest: string)
    requires Escaped(letter).Some?
    ensures NextChar(['\\', letter] + rest) == Some((Escaped(letter).value, rest))
  {
    var text := ['\\', letter] + rest;
    assert text[0] == '\\' && text[1] == letter && text[2..] == rest;
  }

  lemma LongReadBack(high: char, low: char, rest: string)
    requires HexValue(high).Some? && HexValue(low).Some?
    ensures NextChar(['\\', 'u', '0', '0', high, low] + rest)
         == Some(((HexValue(high).value * 16 + HexValue(low).value) as char, rest))
  {
    var text := ['\\', 'u', '0', '0', high, low] + rest;
    assert text[0] == '\\' && text[1..4] == ['u', '0', '0'] && text[4] == high && text[5] == low && text[6..] == rest;
    assert Escaped(text[1]).None?;
  }

  lemma CharReadBack(c: char, rest: string)
    ensures NextChar(Escape(c) + rest) == Some((c, rest)) && Escape(c)[0] != '"'
  {
    var code := c as int;
    if |Escape(c)| == 1 {
      PlainReadBack(c, rest);
    } else if |Escape(c)| == 2 {
      ShortReadBack(Escape(c)[1], rest);
    } else {
      HexDigits(code / 16);
      HexDigits(code % 16);
      LongReadBack(HEX[code / 16], HEX[code % 16], rest);
    }
  }

  lemma OneCharMore(c: char, s: string, more: string, rest: string)
    requires ParseChars(more) == Some((s, rest))
    ensures ParseChars(Escape(c) + more) == Some(([c] + s, rest))
  {
    CharReadBack(c, more);
    assert (Escape(c) + more)[0] == Escape(c)[0];
  }

  lemma {:induction false} CharsReadBack(s: string, rest: string)
    ensures ParseChars(CharsThen(s, rest)) == Some((s, rest))
  {
    if s == [] {
      assert (['"'] + rest)[1..] == rest;
    } else {
      CharsReadBack(s[1..], rest);
      OneCharMore(s[0], s[1..], CharsThen(s[1..], rest), rest);
      assert [s[0]] + s[1..] == s;
    }
  }

  /** A string is read back whatever it holds and whatever follows it. */
  lemma StringReadBack(s: string, rest: string)
    ensures ParseString(StringThen(s, rest)) == Some((s, rest))
  {
    Expected(['"'], CharsThen(s, rest));
    CharsReadBack(s, rest);
  }

  // ----- Pins in JSON

  function SourceName(source: Source): (s: string)
    ensures |s| >= 5
  {
    match source
    case FromExecution => "execution"
    case FromPrincipal => "principal"
    case FromAgent => "agent"
  }

  function SourceNamed(name: string): Option<Source> {
    if name == "execution" then Some(FromExecution)
    else if name == "principal" then Some(FromPrincipal)
    else if name == "agent" then Some(FromAgent)
    else None
  }

  const ID := "{\"id\":"
  const TEXT := ",\"text\":"
  const SOURCE := ",\"source\":"
  const CREATED := ",\"createdAt\":"

  function PinThen(pin: Pin, rest: string): (text: string)
    ensures |text| >= 45 + |pin.id| + |pin.text| + |pin.createdAt| + |rest|
  {
    ID + StringThen(pin.id, TEXT + StringThen(pin.text, SOURCE + StringThen(SourceName(pin.source),
      CREATED + StringThen(pin.createdAt, "}" + rest))))
  }

  /** A token and a string after it. */
  function ParseField(text: string, token: string): (result: Option<(string, string)>)
    ensures result.Some? ==> |result.value.1| < |text|
  {
    var more :- Expect(text, token);
    ParseString(more)
  }

  lemma FieldReadBack(token: string, value: string, rest: string)
    ensures ParseField(token + StringThen(value, rest), token) == Some((value, rest))
  {
    Expected(token, StringThen(value, rest));
    StringReadBack(value, rest);
  }

  function ParsePin(text: string): (result: Option<(Pin, string)>)
    ensures result.Some? ==> |result.value.1| < |text|
  {
    var (id, t1) :- ParseField(text, "{\"id\":");
    var (words, t2) :- ParseField(t1, ",\"text\":");
    var (name, t3) :- ParseField(t2, ",\"source\":");
    var source :- SourceNamed(name);
    var (createdAt, t4) :- ParseField(t3, ",\"createdAt\":");
    var rest :- Expect(t4, "}");
    Some((Pin(id, words, source, createdAt), rest))
  }

  lemma PinReadBack(pin: Pin, rest: string)
    ensures ParsePin(PinThen(pin, rest)) == Some((pin, rest))
  {
    var t4 := "}" + rest;
    var t3 := CREATED + StringThen(pin.createdAt, t4);
    var t2 := SOURCE + StringThen(SourceName(pin.source), t3);
    var t1 := TEXT + StringThen(pin.text, t2);
    FieldReadBack(ID, pin.id, t1);
    FieldReadBack(TEXT, pin.text, t2);
    FieldReadBack(SOURCE, SourceName(pin.source), t3);
    SourceReadBack(pin.source);
    FieldReadBack(CREATED, pin.createdAt, t4);
    Expected("}", rest);
  }

  lemma SourceReadBack(source: Source)
    ensures SourceNamed(SourceName(source)) == Some(source)
  {
    assert "execution"[0] == 'e' && "principal"[0] == 'p' && "agent"[0] == 'a';
  }

  /** The pins of a list and its closing bracket, before `rest`. */
  function PinsThen(pins: seq<Pin>, rest: string): string
    decreases |pins|, 0
  {
    if pins == [] then "]" + rest else PinThen(pins[0], MoreThen(pins[1..], rest))
  }

  /** What follows a pin of a list. */
  function MoreThen(pins: seq<Pin>, rest: string): string
    decreases |pins|, 1
  {
    if pins == [] then "]" + rest else "," + PinsThen(pins, rest)
  }

  function ParsePins(text: string): (result: Option<(seq<Pin>, string)>)
    ensures result.Some? ==> |result.value.1| < |text|
    decreases |text|
  {
    if text != [] && text[0] == ']' then Some(([], text[1..]))
    else
      var (pin, t1) :- ParsePin(text);
      if t1 != [] && t1[0] == ']' then Some(([pin], t1[1..]))
      else
        var t2 :- Expect(t1, ",");
        var (pins, rest) :- ParsePins(t2);
        Some(([pin] + pins, rest))
  }

  lemma PinOpens(pin: Pin, rest: string)
    ensures PinThen(pin, rest)[0] == '{'
  {
  }

  /** A pin, and then what follows it. */
  lemma PinThenMore(pin: Pin, more: string)
    ensures ParsePins(PinThen(pin, more))
         == if more != [] && more[0] == ']' then Some(([pin], more[1..])) else ParseMore(pin, more)
  {
    PinOpens(pin, more);
    PinReadBack(pin, more);
  }

  function ParseMore(pin: Pin, more: string): Option<(seq<Pin>, string)> {
    var next :- Expect(more, ",");
    var (pins, rest) :- ParsePins(next);
    Some(([pin] + pins, rest))
  }

  lemma FirstPin(pins: seq<Pin>, rest: string)
    requires pins != []
    ensures PinsThen(pins, rest)
         == PinThen(pins[0], if |pins| == 1 then "]" + rest else "," + PinsThen(pins[1..], rest))
  {
  }

  lemma LastPin(pin: Pin, rest: string)
    ensures ParsePins(PinThen(pin, "]" + rest)) == Some(([pin], rest))
  {
    PinThenMore(pin, "]" + rest);
  }

  lemma OneMorePin(pin: Pin, pins: seq<Pin>, text: string, rest: string)
    requires ParsePins(text) == Some((pins, rest))
    ensures ParsePins(PinThen(pin, "," + text)) == Some(([pin] + pins, rest))
  {
    Expected(",", text);
    assert ("," + text)[0] == ',';
    PinThenMore(pin, "," + text);
  }

  lemma {:induction false} PinsReadBack(pins: seq<Pin>, rest: string)
    ensures ParsePins(PinsThen(pins, rest)) == Some((pins, rest))
  {
    if pins == [] {
      assert ("]" + rest)[1..] == rest;
    } else if |pins| == 1 {
      LastPinRead(pins, rest);
    } else {
      PinsReadBack(pins[1..], rest);
      MorePinsRead(pins, PinsThen(pins[1..], rest), PinsThen(pins, rest), rest) by { FirstPin(pins, rest); }
    }
  }

  lemma LastPinRead(pins: seq<Pin>, rest: string)
    requires |pins| == 1
    ensures ParsePins(PinsThen(pins, rest)) == Some((pins, rest))
  {
    FirstPin(pins, rest);
    LastPin(pins[0], rest);
    assert pins == [pins[0]];
  }

  lemma MorePinsRead(pins: seq<Pin>, text: string, whole: string, rest: string)
    requires |pins| > 1 && ParsePins(text) == Some((pins[1..], rest)) && whole == PinThen(pins[0], "," + text)
    ensures ParsePins(whole) == Some((pins, rest))
  {
    OneMorePin(pins[0], pins[1..], text, rest);
    assert pins == [pins[0]] + pins[1..];
  }

  // ----- The whole checkpoint in JSON

  function RuntimeName(runtime: Runtime): string {
    match runtime
    case Claude => "claude"
    case Codex => "codex"
  }

  function RuntimeNamed(name: string): Option<Runtime> {
    if name == "claude" then Some(Claude) else if name == "codex" then Some(Codex) else None
  }

  const NULL := "null"

  function OptionalThen(value: Option<string>, rest: string): string {
    if value.Some? then StringThen(value.value, rest) else NULL + rest
  }

  function ParseOptional(text: string): Option<(Option<string>, string)> {
    if Expect(text, "null").Some? then Some((None, Expect(text, "null").value))
    else
      var (value, rest) :- ParseString(text);
      Some((Some(value), rest))
  }

  lemma OptionalReadBack(value: Option<string>, rest: string)
    ensures ParseOptional(OptionalThen(value, rest)) == Some((value, rest))
  {
    if value.Some? {
      assert StringThen(value.value, rest)[0] == '"' && "null"[0] == 'n';
      StringReadBack(value.value, rest);
    } else {
      Expected(NULL, rest);
    }
  }

  const EXECUTION := "{\"version\":1,\"executionId\":"
  const POLICY := ",\"policyHash\":"
  const RUNTIME := ",\"runtime\":"
  const UPDATED := ",\"updatedAt\":"
  const OBJECTIVE := ",\"objective\":"
  const DECISIONS := ",\"decisions\":["
  const CONSTRAINTS := ",\"constraints\":["
  const OPEN_ITEMS := ",\"openItems\":["
  const NEXT_ACTIONS := ",\"nextActions\":["
  const INTEGRITY := ",\"integrity\":{\"checkpointSha256\":"

  /** The lists and the digest. */
  function JsonLists(c: Checkpoint): string {
    DECISIONS + PinsThen(c.decisions, CONSTRAINTS + PinsThen(c.constraints, OPEN_ITEMS + PinsThen(c.openItems,
      NEXT_ACTIONS + PinsThen(c.nextActions, INTEGRITY + StringThen(c.sha256, "}}")))))
  }

  function RuntimeText(runtime: Option<Runtime>): Option<string> {
    if runtime.Some? then Some(RuntimeName(runtime.value)) else None
  }

  /** `JSON.stringify` of a checkpoint. */
  function Json(c: Checkpoint): string {
    EXECUTION + StringThen(c.executionId, POLICY + StringThen(c.policyHash,
      RUNTIME + OptionalThen(RuntimeText(c.runtime), CREATED + StringThen(c.createdAt,
        UPDATED + StringThen(c.updatedAt, OBJECTIVE + OptionalThen(c.objective, JsonLists(c)))))))
  }

  function ParseList(text: string, token: string): Option<(seq<Pin>, string)> {
    var more :- Expect(text, token);
    ParsePins(more)
  }

  function ParseNullable(text: string, token: string): Option<(Option<string>, string)> {
    var more :- Expect(text, token);
    ParseOptional(more)
  }

  /** The lists and the digest, with nothing left over. */
  function ParseLists(text: string): Option<(seq<Pin>, seq<Pin>, seq<Pin>, seq<Pin>, string)> {
    var (decisions, t1) :- ParseList(text, ",\"decisions\":[");
    var (constraints, t2) :- ParseList(t1, ",\"constraints\":[");
    var (openItems, t3) :- ParseList(t2, ",\"openItems\":[");
    var (nextActions, t4) :- ParseList(t3, ",\"nextActions\":[");
    var (sha256, t5) :- ParseField(t4, ",\"integrity\":{\"checkpointSha256\":");
    if t5 == "}}" then Some((decisions, constraints, openItems, nextActions, sha256)) else None
  }

  function ParseRuntime(name: Option<string>): Option<Option<Runtime>> {
    if name.None? then Some(None)
    else
      var runtime :- RuntimeNamed(name.value);
      Some(Some(runtime))
  }

  function ParseCheckpoint(text: string): Option<Checkpoint> {
    var (executionId, t1) :- ParseField(text, "{\"version\":1,\"executionId\":");
    var (policyHash, t2) :- ParseField(t1, ",\"policyHash\":");
    var (name, t3) :- ParseNullable(t2, ",\"runtime\":");
    var runtime :- ParseRuntime(name);
    var (createdAt, t4) :- ParseField(t3, ",\"createdAt\":");
    var (updatedAt, t5) :- ParseField(t4, ",\"updatedAt\":");
    var (objective, t6) :- ParseNullable(t5, ",\"objective\":");
    var (decisions, constraints, openItems, nextActions, sha256) :- ParseLists(t6);
    Some(Checkpoint(executionId, policyHash, runtime, createdAt, updatedAt, objective, decisions, constraints,
                    openItems, nextActions, sha256))
  }

  lemma ListReadBack(token: string, pins: seq<Pin>, rest: string)
    ensures ParseList(token + PinsThen(pins, rest), token) == Some((pins, rest))
  {
    Expected(token, PinsThen(pins, rest));
    PinsReadBack(pins, rest);
  }

  lemma NullableReadBack(token: string, value: Option<string>, rest: string)
    ensures ParseNullable(token + OptionalThen(value, rest), token) == Some((value, rest))
  {
    Expected(token, OptionalThen(value, rest));
    OptionalReadBack(value, rest);
  }

  lemma ListsReadBack(c: Checkpoint)
    ensures ParseLists(JsonLists(c)) == Some((c.decisions, c.constraints, c.openItems, c.nextActions, c.sha256))
  {
    var t4 := INTEGRITY + StringThen(c.sha256, "}}");
    var t3 := NEXT_ACTIONS + PinsThen(c.nextActions, t4);
    var t2 := OPEN_ITEMS + PinsThen(c.openItems, t3);
    var t1 := CONSTRAINTS + PinsThen(c.constraints, t2);
    ListReadBack(DECISIONS, c.decisions, t1);
    ListReadBack(CONSTRAINTS, c.constraints, t2);
    ListReadBack(OPEN_ITEMS, c.openItems, t3);
    ListReadBack(NEXT_ACTIONS, c.nextActions, t4);
    FieldReadBack(INTEGRITY, c.sha256, "}}");
  }

  lemma RuntimeReadBack(runtime: Option<Runtime>)
    ensures ParseRuntime(RuntimeText(runtime)) == Some(runtime)
  {
    assert "claude"[1] == 'l' && "codex"[1] == 'o';
  }

  /** What is measured is the checkpoint itself: it can be read back from that text, whatever its strings hold. */
  lemma CheckpointReadBack(c: Checkpoint)
    ensures ParseCheckpoint(Json(c)) == Some(c)
  {
    var t6 := JsonLists(c);
    var t5 := OBJECTIVE + OptionalThen(c.objective, t6);
    var t4 := UPDATED + StringThen(c.updatedAt, t5);
    var t3 := CREATED + StringThen(c.createdAt, t4);
    var t2 := RUNTIME + OptionalThen(RuntimeText(c.runtime), t3);
    var t1 := POLICY + StringThen(c.policyHash, t2);
    FieldReadBack(EXECUTION, c.executionId, t1);
    FieldReadBack(POLICY, c.policyHash, t2);
    NullableReadBack(RUNTIME, RuntimeText(c.runtime), t3);
    RuntimeReadBack(c.runtime);
    FieldReadBack(CREATED, c.createdAt, t4);
    FieldReadBack(UPDATED, c.updatedAt, t5);
    NullableReadBack(OBJECTIVE, c.objective, t6);
    ListsReadBack(c);
  }

  // ----- The schema

  predicate PinAccepted(pin: Pin) {
    pin.id != "" && pin.text != "" && ByteLength(pin.text) <= PIN_MAX_BYTES && pin.createdAt != ""
  }

  predicate IsWord(c: char) {
    'a' <= c <= 'z' || 'A' <= c <= 'Z' || '0' <= c <= '9' || c == '_' || c == '-'
  }

  predicate SchemaAccepts(c: Checkpoint) {
    && "exec_" < c.executionId && (forall i :: 5 <= i < |c.executionId| ==> IsWord(c.executionId[i]))
    && c.policyHash != "" && c.createdAt != "" && c.updatedAt != "" && |c.sha256| == 64
    && (forall pin :: pin in c.decisions + c.constraints + c.openItems + c.nextActions ==> PinAccepted(pin))
    && ByteLength(Json(c)) <= CHECKPOINT_MAX_BYTES
  }

  // ----- How many pins there is room for

  const SMALLEST_PIN := 49

  lemma {:induction false} PinsTakeRoom(pins: seq<Pin>, rest: string)
    requires forall pin :: pin in pins ==> PinAccepted(pin)
    ensures |PinsThen(pins, rest)| >= SMALLEST_PIN * |pins| + |rest|
  {
    if pins != [] {
      assert PinAccepted(pins[0]);
      PinsTakeRoom(pins[1..], rest);
      assert |MoreThen(pins[1..], rest)| >= SMALLEST_PIN * (|pins| - 1) + |rest|;
    }
  }

  function PinCount(c: Checkpoint): nat {
    |c.decisions| + |c.constraints| + |c.openItems| + |c.nextActions|
  }

  lemma ListsTakeRoom(c: Checkpoint)
    requires SchemaAccepts(c)
    ensures |JsonLists(c)| >= SMALLEST_PIN * PinCount(c)
  {
    var t4 := INTEGRITY + StringThen(c.sha256, "}}");
    var t3 := NEXT_ACTIONS + PinsThen(c.nextActions, t4);
    var t2 := OPEN_ITEMS + PinsThen(c.openItems, t3);
    var t1 := CONSTRAINTS + PinsThen(c.constraints, t2);
    PinsTakeRoom(c.decisions, t1);
    PinsTakeRoom(c.constraints, t2);
    PinsTakeRoom(c.openItems, t3);
    PinsTakeRoom(c.nextActions, t4);
  }

  /** The 128 KiB limit leaves room for far fewer than 10,000 pins. */
  lemma FewPins(c: Checkpoint)
    requires SchemaAccepts(c)
    ensures PinCount(c) + 1 < 10_000
  {
    ListsTakeRoom(c);
    BytesAtLeastChars(Json(c));
  }
}
