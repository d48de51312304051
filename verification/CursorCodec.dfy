/** The opaque page cursor (src/storage/timeline_cursor.py): JSON under unpadded base64url. */
module CursorCodec {
  import opened Options
  import opened Ordering

  type Byte = x: int | 0 <= x < 256
  type Sextet = x: int | 0 <= x < 64

  datatype Result<+T> = Ok(value: T) | Err(error: CursorError)
  datatype CursorError = Empty | Malformed | MissingOccurredAt | MissingEventId | InvalidTimestamp

  // ---- base64url (RFC 4648, section 5) ----

  function CharOf(v: Sextet): char {
    if v < 26 then (v + 65) as char
    else if v < 52 then (v + 71) as char
    else if v < 62 then (v - 4) as char
    else if v == 62 then '-'
    else '_'
  }

  function ValueOf(c: char): Option<Sextet> {
    if 'A' <= c <= 'Z' then Some(c as int - 65)
    else if 'a' <= c <= 'z' then Some(c as int - 71)
    else if '0' <= c <= '9' then Some(c as int + 4)
    else if c == '-' then Some(62)
    else if c == '_' then Some(63)
    else None
  }

  /** The characters before the padding. */
  function Digits(b: seq<Byte>): (s: string)
    ensures s == "" <==> b == []
    ensures forall i | 0 <= i < |s| :: ValueOf(s[i]).Some?
  {
    if b == [] then ""
    else if |b| == 1 then [CharOf(b[0] / 4), CharOf(b[0] % 4 * 16)]
    else if |b| == 2 then
      [CharOf(b[0] / 4), CharOf(b[0] % 4 * 16 + b[1] / 16), CharOf(b[1] % 16 * 4)]
    else
      [CharOf(b[0] / 4), CharOf(b[0] % 4 * 16 + b[1] / 16),
       CharOf(b[1] % 16 * 4 + b[2] / 64), CharOf(b[2] % 64)] + Digits(b[3..])
  }

  function Pads(n: nat): string {
    seq(n, i => '=')
  }

  /** base64.urlsafe_b64encode: digits, padded to a multiple of four. */
  function Encode64(b: seq<Byte>): string {
    var digits := Digits(b);
    digits + Pads((-|digits|) % 4)
  }

  /** base64.urlsafe_b64decode on text over the alphabet; anything else is an error. */
  function Decode64(s: string): Option<seq<Byte>> {
    if s == "" then Some([])
    else if |s| < 4 then None
    else
      var (a, b) := (ValueOf(s[0]), ValueOf(s[1]));
      if a.None? || b.None? then None
      else if |s| == 4 && s[2] == '=' && s[3] == '=' then
        Some([a.value * 4 + b.value / 16])
      else
        var c := ValueOf(s[2]);
        if c.None? then None
        else if |s| == 4 && s[3] == '=' then
          Some([a.value * 4 + b.value / 16, b.value % 16 * 16 + c.value / 4])
        else
          var d := ValueOf(s[3]);
          var rest := Decode64(s[4..]);
          if d.None? || rest.None? then None
          else Some([a.value * 4 + b.value / 16, b.value % 16 * 16 + c.value / 4,
                     c.value % 4 * 64 + d.value] + rest.value)
  }

  /** Only whole groups over the alphabet decode, with at most two pads at the end. */
  lemma {:induction false} DecodesAlphabetOnly(s: string)
    requires Decode64(s).Some?
    ensures |s| % 4 == 0
    ensures forall i | 0 <= i < |s| :: ValueOf(s[i]).Some? || (s[i] == '=' && i >= |s| - 2)
    ensures |s| >= 2 && s[|s|-2] == '=' ==> s[|s|-1] == '='
  {
    if |s| > 4 {
      DecodesAlphabetOnly(s[4..]);
      assert forall i | 4 <= i < |s| :: s[i] == s[4..][i-4];
    }
  }

  lemma CharValue(v: Sextet)
    ensures ValueOf(CharOf(v)) == Some(v) && CharOf(v) != '='
  {
  }

  lemma SextetsHoldBytes(x: Byte, y: Byte, z: Byte)
    ensures x / 4 * 4 + (x % 4 * 16 + y / 16) / 16 == x
    ensures (x % 4 * 16 + y / 16) % 16 * 16 + (y % 16 * 4 + z / 64) / 4 == y
    ensures (y % 16 * 4 + z / 64) % 4 * 64 + z % 64 == z
  {
  }

  /** Decoding one full group of four characters. */
  lemma DecodeGroup(x: Byte, y: Byte, z: Byte, tail: string)
    requires Decode64(tail).Some?
    ensures Decode64([CharOf(x / 4), CharOf(x % 4 * 16 + y / 16),
                      CharOf(y % 16 * 4 + z / 64), CharOf(z % 64)] + tail)
         == Some([x, y, z] + Decode64(tail).value)
  {
    var group := [CharOf(x / 4), CharOf(x % 4 * 16 + y / 16),
                  CharOf(y % 16 * 4 + z / 64), CharOf(z % 64)];
    CharValue(x / 4);
    CharValue(x % 4 * 16 + y / 16);
    CharValue(y % 16 * 4 + z / 64);
    CharValue(z % 64);
    SextetsHoldBytes(x, y, z);
    assert (group + tail)[4..] == tail;
  }

  lemma DecodeOne(x: Byte)
    ensures Decode64(Encode64([x])) == Some([x])
  {
  }

  lemma DecodeTwo(x: Byte, y: Byte)
    ensures Decode64(Encode64([x, y])) == Some([x, y])
  {
    CharValue(x / 4);
    CharValue(x % 4 * 16 + y / 16);
    CharValue(y % 16 * 4);
    SextetsHoldBytes(x, y, 0);
    assert Encode64([x, y])
        == [CharOf(x / 4), CharOf(x % 4 * 16 + y / 16), CharOf(y % 16 * 4), '='];
  }

  lemma {:induction false} Decode64Inverts(b: seq<Byte>)
    ensures Decode64(Encode64(b)) == Some(b)
  {
    if b == [] {
    } else if |b| == 1 {
      DecodeOne(b[0]);
      assert b == [b[0]];
    } else if |b| == 2 {
      DecodeTwo(b[0], b[1]);
      assert b == [b[0], b[1]];
    } else {
      Decode64Inverts(b[3..]);
      InvertsStep(b, b[3..]);
    }
  }

  lemma InvertsStep(b: seq<Byte>, rest: seq<Byte>)
    requires |b| >= 3 && rest == b[3..]
    requires Decode64(Encode64(rest)) == Some(rest)
    ensures Decode64(Encode64(b)) == Some(b)
  {
    hide Decode64;
    EncodeGroup(b);
    DecodeGroup(b[0], b[1], b[2], Encode64(rest));
    assert b == [b[0], b[1], b[2]] + rest;
  }

  lemma EncodeGroup(b: seq<Byte>)
    requires |b| >= 3
    ensures Encode64(b) == [CharOf(b[0] / 4), CharOf(b[0] % 4 * 16 + b[1] / 16),
                            CharOf(b[1] % 16 * 4 + b[2] / 64), CharOf(b[2] % 64)] + Encode64(b[3..])
  {
  }

  /** rstrip("="). */
  function RStripPad(s: string): string {
    if s != "" && s[|s|-1] == '=' then RStripPad(s[..|s|-1]) else s
  }

  lemma {:induction false} RStripPadStops(s: string, n: nat)
    requires s != "" ==> s[|s|-1] != '='
    ensures RStripPad(s + Pads(n)) == s
  {
    if n == 0 {
      assert s + Pads(0) == s;
    } else {
      var t := s + Pads(n);
      assert t[..|t|-1] == s + Pads(n - 1);
      RStripPadStops(s, n - 1);
    }
  }

  /** Padding dropped by the encoder is exactly what `-len % 4` puts back
      (RFC 4648, section 3.2). */
  lemma PaddingIsRestored(b: seq<Byte>)
    ensures RStripPad(Encode64(b)) == Digits(b)
    ensures var kept := RStripPad(Encode64(b)); kept + Pads((-|kept|) % 4) == Encode64(b)
  {
    hide Digits, ValueOf, RStripPad, IsSpace;
    var d := Digits(b);
    if d != "" { AlphabetHasNoSpace(d[|d|-1]); }
    RStripPadStops(d, (-|d|) % 4);
  }

  // ---- str.strip ----

  predicate IsSpace(c: char) {
    c in " \t\n\r" || 0x0b <= c as int <= 0x0c || 0x1c <= c as int <= 0x1f
    || c as int in {0x85, 0xa0, 0x1680, 0x2028, 0x2029, 0x202f, 0x205f, 0x3000}
    || 0x2000 <= c as int <= 0x200a
  }

  function LStrip(s: string): string {
    if s != "" && IsSpace(s[0]) then LStrip(s[1..]) else s
  }

  function RStrip(s: string): string {
    if s != "" && IsSpace(s[|s|-1]) then RStrip(s[..|s|-1]) else s
  }

  function Strip(s: string): string {
    RStrip(LStrip(s))
  }

  predicate Blank(s: string) {
    Strip(s) == ""
  }

  lemma AlphabetHasNoSpace(c: char)
    requires ValueOf(c).Some?
    ensures !IsSpace(c) && c != '='
  {
  }

  // ---- timestamps ----

  /** A clock reading in microseconds and its UTC offset, if it has one. */
  datatype Datetime = Datetime(clock: int, offset: Option<int>)

  function EnsureUtc(d: Datetime): Datetime {
    match d.offset
    case None => Datetime(d.clock, Some(0))
    case Some(o) => Datetime(d.clock - o, Some(0))
  }

  datatype Payload = Payload(t: string, i: string)

  /** A parsed JSON object: a field is None when absent or not a string. */
  datatype Fields = Fields(t: Option<string>, i: Option<string>)

  /** The text layer underneath: json.dumps/loads (with UTF-8) and datetime's ISO 8601 forms.
      `iso` is isoformat without its "+00:00" suffix. */
  datatype Text = Text(
    dumps: Payload -> seq<Byte>, loads: seq<Byte> -> Option<Fields>,
    iso: int -> string, fromIso: string -> Option<Datetime>)

  ghost predicate Faithful(text: Text) {
    && (forall p :: text.dumps(p) != [] && text.loads(text.dumps(p)) == Some(Fields(Some(p.t), Some(p.i))))
    && (forall c {:trigger text.iso(c)} ::
         text.iso(c) != "" && !IsSpace(text.iso(c)[0])
         && text.fromIso(text.iso(c) + "+00:00") == Some(Datetime(c, Some(0))))
  }

  function ParseIsoUtc(text: Text, value: string): Option<Datetime> {
    var s := Strip(value);
    var s' := if s != "" && s[|s|-1] == 'Z' then s[..|s|-1] + "+00:00" else s;
    match text.fromIso(s')
    case None => None
    case Some(d) => Some(EnsureUtc(d))
  }

  // ---- encode_cursor and decode_cursor ----

  function EncodeCursor(text: Text, occurredAt: Datetime, eventId: string): string {
    var aware := EnsureUtc(occurredAt);
    RStripPad(Encode64(text.dumps(Payload(text.iso(aware.clock) + "Z", eventId))))
  }

  /** The checks on the parsed object. */
  function DecodeFields(text: Text, parsed: Option<Fields>): Result<Key> {
    match parsed
    case None => Err(Malformed)
    case Some(data) =>
      if data.t.None? || Blank(data.t.value) then Err(MissingOccurredAt)
      else if data.i.None? || Blank(data.i.value) then Err(MissingEventId)
      else match ParseIsoUtc(text, data.t.value)
           case None => Err(InvalidTimestamp)
           case Some(at) => Ok(Key(at.clock, Strip(data.i.value)))
  }

  function DecodeCursor(text: Text, token: string): Result<Key> {
    if Blank(token) then Err(Empty)
    else
      var kept := Strip(token);
      match Decode64(kept + Pads((-|kept|) % 4))
      case None => Err(Malformed)
      case Some(raw) => DecodeFields(text, text.loads(raw))
  }

  lemma TokenSurvivesStrip(s: string)
    requires forall i | 0 <= i < |s| :: ValueOf(s[i]).Some?
    ensures Strip(s) == s
  {
  }

  lemma TimestampRoundTrip(text: Text, clock: int)
    requires Faithful(text)
    ensures var t := text.iso(clock) + "Z";
            !Blank(t) && ParseIsoUtc(text, t) == Some(Datetime(clock, Some(0)))
  {
  }

  lemma TokenRestoresBytes(raw: seq<Byte>)
    requires raw != []
    ensures var token := RStripPad(Encode64(raw));
            !Blank(token) && Decode64(Strip(token) + Pads((-|Strip(token)|) % 4)) == Some(raw)
  {
    PaddingIsRestored(raw);
    Decode64Inverts(raw);
    assert Digits(raw) != "";
    hide Digits, Encode64, Decode64, RStripPad, Strip, ValueOf;
    TokenSurvivesStrip(Digits(raw));
  }

  lemma DecodeCursorOfBytes(text: Text, raw: seq<Byte>)
    requires raw != []
    ensures DecodeCursor(text, RStripPad(Encode64(raw))) == DecodeFields(text, text.loads(raw))
  {
    hide Encode64, Decode64, Strip, RStripPad, DecodeFields;
    TokenRestoresBytes(raw);
  }

  /** Decoding an encoded cursor always gives the UTC instant and the *stripped* id. */
  lemma DecodeOfEncode(text: Text, occurredAt: Datetime, eventId: string)
    requires Faithful(text)
    ensures DecodeCursor(text, EncodeCursor(text, occurredAt, eventId))
         == if Blank(eventId) then Err(MissingEventId)
            else Ok(Key(EnsureUtc(occurredAt).clock, Strip(eventId)))
  {
    var clock := EnsureUtc(occurredAt).clock;
    var p := Payload(text.iso(clock) + "Z", eventId);
    DecodeCursorOfBytes(text, text.dumps(p));
    TimestampRoundTrip(text, clock);
  }

  /** An instant is one instant: told in UTC, by a local clock with its offset, or without an offset,
      which is read as UTC, it gives the same token, and the token gives that instant back. */
  lemma OffsetsAgree(text: Text, utc: int, offset: int, eventId: string)
    requires Faithful(text) && !Blank(eventId)
    ensures var token := EncodeCursor(text, Datetime(utc, Some(0)), eventId);
            && EncodeCursor(text, Datetime(utc + offset, Some(offset)), eventId) == token
            && EncodeCursor(text, Datetime(utc, None), eventId) == token
            && DecodeCursor(text, token) == Ok(Key(utc, Strip(eventId)))
  {
    hide DecodeCursor, RStripPad, Encode64, Strip;
    DecodeOfEncode(text, Datetime(utc, Some(0)), eventId);
  }

  /** The round trip is exact just when the id carries no surrounding whitespace and is not blank. */
  lemma CursorRoundTrip(text: Text, occurredAt: Datetime, eventId: string)
    requires Faithful(text)
    ensures DecodeCursor(text, EncodeCursor(text, occurredAt, eventId))
              == Ok(Key(EnsureUtc(occurredAt).clock, eventId))
       <==> eventId != "" && !IsSpace(eventId[0]) && !IsSpace(eventId[|eventId|-1])
  {
    DecodeOfEncode(text, occurredAt, eventId);
    StripIsIdentity(eventId);
  }

  lemma StripIsIdentity(s: string)
    ensures s != "" && Strip(s) == s <==> s != "" && !IsSpace(s[0]) && !IsSpace(s[|s|-1])
  {
    if s != "" && IsSpace(s[0]) {
      LStripShortens(s[1..]);
      RStripShortens(LStrip(s));
    } else if s != "" && IsSpace(s[|s|-1]) {
      RStripShortens(s[..|s|-1]);
    }
  }

  lemma {:induction false} LStripShortens(s: string)
    ensures |LStrip(s)| <= |s|
  {
    if s != "" && IsSpace(s[0]) { LStripShortens(s[1..]); }
  }

  lemma {:induction false} RStripShortens(s: string)
    ensures |RStrip(s)| <= |s|
  {
    if s != "" && IsSpace(s[|s|-1]) { RStripShortens(s[..|s|-1]); }
  }
}
