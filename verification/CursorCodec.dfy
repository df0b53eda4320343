/** Event cursors as text: internal/server/events.go. */
module CursorCodec {
  import opened Domain
  import opened Numeric

  const ENCODED_SIZE := 44

  type sextet = x: int | 0 <= x < 64

  /** `n` as `width` bytes, most significant first. */
  function BigEndian(n: nat, width: nat): (bs: seq<byte>)
    ensures |bs| == width
  {
    if width == 0 then [] else BigEndian(n / 256, width - 1) + [n % 256]
  }

  function Number(bs: seq<byte>): (n: nat) {
    if bs == [] then 0 else Number(bs[..|bs| - 1]) * 256 + bs[|bs| - 1]
  }

  lemma {:induction false} NumberOfBigEndian(n: nat, width: nat)
    requires n < Power(256, width)
    ensures Number(BigEndian(n, width)) == n
  {
    if width > 0 {
      NumberOfBigEndian(n / 256, width - 1);
      var bs := BigEndian(n, width);
      assert bs[..|bs| - 1] == BigEndian(n / 256, width - 1);
    }
  }

  lemma {:induction false} BigEndianOfNumber(bs: seq<byte>)
    ensures Number(bs) < Power(256, |bs|)
    ensures BigEndian(Number(bs), |bs|) == bs
  {
    if bs != [] {
      BigEndianOfNumber(bs[..|bs| - 1]);
      assert bs == bs[..|bs| - 1] + [bs[|bs| - 1]];
    }
  }

  /** The sizes of the three fields. */
  lemma FieldSizes()
    ensures Power(256, 8) == MAX_UINT64 + 1
    ensures Power(256, 4) == MAX_UINT32 + 1
    ensures Power(256, 32) == TWO_TO_256
  {
    PowersMultiply(256, 4, 4);
    PowersMultiply(256, 8, 8);
    PowersMultiply(256, 16, 16);
  }

  /** Three bytes as four groups of six bits. */
  function Group(x: byte, y: byte, z: byte): (xs: seq<sextet>)
    ensures |xs| == 4
  {
    [x / 4, x % 4 * 16 + y / 16, y % 16 * 4 + z / 64, z % 64]
  }

  /** Six bits at a time, as base64 without padding does; a short last group is filled with zero bits. */
  function Sextets(bs: seq<byte>): (xs: seq<sextet>) {
    if |bs| == 0 then []
    else if |bs| == 1 then [bs[0] / 4, bs[0] % 4 * 16]
    else if |bs| == 2 then [bs[0] / 4, bs[0] % 4 * 16 + bs[1] / 16, bs[1] % 16 * 4]
    else Group(bs[0], bs[1], bs[2]) + Sextets(bs[3..])
  }

  /** Three bytes from four groups of six bits. */
  function First(a: int, b: int): (x: byte)
    requires 0 <= a < 64 && 0 <= b < 64
  {
    a * 4 + b / 16
  }

  function Second(b: int, c: int): (y: byte)
    requires 0 <= b < 64 && 0 <= c < 64
  {
    b % 16 * 16 + c / 4
  }

  function Third(c: int, d: int): (z: byte)
    requires 0 <= c < 64 && 0 <= d < 64
  {
    c % 4 * 64 + d
  }

  /** The decoder ignores what is left over in a short last group. */
  function Bytes(xs: seq<sextet>): (bs: seq<byte>)
    requires |xs| % 4 != 1
  {
    if |xs| == 0 then []
    else if |xs| == 2 then [First(xs[0], xs[1])]
    else if |xs| == 3 then [First(xs[0], xs[1]), Second(xs[1], xs[2])]
    else [First(xs[0], xs[1]), Second(xs[1], xs[2]), Third(xs[2], xs[3])] + Bytes(xs[4..])
  }

  /** The bits cut out of three bytes join to the same bytes. */
  lemma GroupRoundTrip(x: byte, y: byte, z: byte)
    ensures var g := Group(x, y, z); First(g[0], g[1]) == x && Second(g[1], g[2]) == y && Third(g[2], g[3]) == z
  {
  }

  lemma ShortGroupRoundTrip(bs: seq<byte>)
    requires |bs| <= 2
    ensures |Sextets(bs)| % 4 != 1 && Bytes(Sextets(bs)) == bs
  {
  }

  lemma BytesOfGroup(g: seq<sextet>, rest: seq<sextet>)
    requires |g| == 4 && |rest| % 4 != 1
    ensures |g + rest| % 4 != 1
    ensures Bytes(g + rest) == [First(g[0], g[1]), Second(g[1], g[2]), Third(g[2], g[3])] + Bytes(rest)
  {
    assert (g + rest)[4..] == rest;
  }

  lemma LongGroupRoundTrip(x: byte, y: byte, z: byte, rest: seq<sextet>)
    requires |rest| % 4 != 1
    ensures |Group(x, y, z) + rest| % 4 != 1
    ensures Bytes(Group(x, y, z) + rest) == [x, y, z] + Bytes(rest)
  {
    BytesOfGroup(Group(x, y, z), rest);
    GroupRoundTrip(x, y, z);
  }

  lemma {:induction false} BytesOfSextets(bs: seq<byte>)
    ensures |Sextets(bs)| % 4 != 1 && Bytes(Sextets(bs)) == bs
  {
    if |bs| <= 2 {
      ShortGroupRoundTrip(bs);
    } else {
      BytesOfSextets(bs[3..]);
      LongGroupRoundTrip(bs[0], bs[1], bs[2], Sextets(bs[3..]));
      assert bs == [bs[0], bs[1], bs[2]] + bs[3..];
    }
  }

  /** The URL-safe alphabet. */
  function Letter(x: sextet): (c: char) {
    if x < 26 then 'A' + x as char
    else if x < 52 then 'a' + (x - 26) as char
    else if x < 62 then '0' + (x - 52) as char
    else if x == 62 then '-' else '_'
  }

  function Symbol(c: char): (x: Option<sextet>) {
    if 'A' <= c <= 'Z' then Some(c as int - 'A' as int)
    else if 'a' <= c <= 'z' then Some(c as int - 'a' as int + 26)
    else if '0' <= c <= '9' then Some(c as int - '0' as int + 52)
    else if c == '-' then Some(62)
    else if c == '_' then Some(63)
    else None
  }

  lemma LettersAreSymbols(x: sextet)
    ensures Symbol(Letter(x)) == Some(x) && Letter(x) !in "\r\n"
  {
  }

  function Text(xs: seq<sextet>): (s: string)
    ensures |s| == |xs|
  {
    if xs == [] then [] else [Letter(xs[0])] + Text(xs[1..])
  }

  /** The decoder skips line breaks and fails on anything else outside the alphabet. */
  function Read(s: string): (xs: Option<seq<sextet>>) {
    if s == [] then Some([])
    else if s[0] in "\r\n" then Read(s[1..])
    else
      var rest := Read(s[1..]);
      if Symbol(s[0]).None? || rest.None? then None else Some([Symbol(s[0]).value] + rest.value)
  }

  lemma {:induction false} ReadText(xs: seq<sextet>)
    ensures Read(Text(xs)) == Some(xs)
  {
    if xs == [] {
      assert Text(xs) == "";
    } else {
      LettersAreSymbols(xs[0]);
      ReadText(xs[1..]);
      var s := Text(xs);
      assert s[0] == Letter(xs[0]) && s[1..] == Text(xs[1..]);
      assert xs == [xs[0]] + xs[1..];
    }
  }

  /** base64.RawURLEncoding. */
  function Base64(bs: seq<byte>): (s: string) {
    Text(Sextets(bs))
  }

  function Unbase64(s: string): (r: Option<seq<byte>>) {
    var xs := Read(s);
    if xs.None? || |xs.value| % 4 == 1 then None else Some(Bytes(xs.value))
  }

  lemma Unbase64Base64(bs: seq<byte>)
    ensures Unbase64(Base64(bs)) == Some(bs)
  {
    BytesOfSextets(bs);
    ReadText(Sextets(bs));
  }

  function Pack(c: EventCursor): (bs: seq<byte>) {
    BigEndian(c.blockNumber, 8) + BigEndian(c.blockHash, 32) + BigEndian(c.logIndex, 4)
  }

  function Unpack(bs: seq<byte>): (c: EventCursor)
    requires |bs| == ENCODED_SIZE
  {
    FieldSizes();
    BigEndianOfNumber(bs[..8]);
    BigEndianOfNumber(bs[8..40]);
    BigEndianOfNumber(bs[40..]);
    EventCursor(Number(bs[..8]), Number(bs[8..40]), Number(bs[40..]))
  }

  lemma UnpackPack(c: EventCursor)
    ensures |Pack(c)| == ENCODED_SIZE && Unpack(Pack(c)) == c
  {
    FieldSizes();
    var number, hash, index := BigEndian(c.blockNumber, 8), BigEndian(c.blockHash, 32), BigEndian(c.logIndex, 4);
    assert Pack(c)[..8] == number && Pack(c)[8..40] == hash && Pack(c)[40..] == index;
    NumberOfBigEndian(c.blockNumber, 8);
    NumberOfBigEndian(c.blockHash, 32);
    NumberOfBigEndian(c.logIndex, 4);
  }

  lemma PackUnpack(bs: seq<byte>)
    requires |bs| == ENCODED_SIZE
    ensures Pack(Unpack(bs)) == bs
  {
    BigEndianOfNumber(bs[..8]);
    BigEndianOfNumber(bs[8..40]);
    BigEndianOfNumber(bs[40..]);
    assert bs == bs[..8] + bs[8..40] + bs[40..];
  }

  function EncodeEventCursor(c: EventCursor): (s: string) {
    Base64(Pack(c))
  }

  /** `values` are the values of the cursor parameter, if the request has that parameter at all. */
  function ParseEventCursor(values: Option<seq<string>>): (r: Result<Option<EventCursor>>) {
    if values.None? then Ok(None)
    else if |values.value| != 1 || values.value[0] == "" then Err(InvalidQuery)
    else
      var decoded := Unbase64(values.value[0]);
      if decoded.None? || |decoded.value| != ENCODED_SIZE
          || Base64(decoded.value) != values.value[0] then Err(InvalidQuery)
      else Ok(Some(Unpack(decoded.value)))
  }

  lemma TextIsNotEmpty(bs: seq<byte>)
    requires bs != []
    ensures Base64(bs) != ""
  {
  }

  /** Text and cursors correspond one to one: a text is accepted as a cursor exactly when it is that cursor's text. */
  lemma CursorTextIsUnique(s: string, c: EventCursor)
    ensures ParseEventCursor(Some([s])) == Ok(Some(c)) <==> s == EncodeEventCursor(c)
  {
    Unbase64Base64(Pack(c));
    UnpackPack(c);
    if s == EncodeEventCursor(c) {
      TextIsNotEmpty(Pack(c));
    }
    var decoded := Unbase64(s);
    if decoded.Some? && |decoded.value| == ENCODED_SIZE {
      PackUnpack(decoded.value);
    }
  }

  lemma {:induction false} ReadSkipsLineBreak(s: string)
    ensures Read(s + "\n") == Read(s)
  {
    if s == [] {
      assert (s + "\n")[1..] == [];
    } else {
      ReadSkipsLineBreak(s[1..]);
      assert (s + "\n")[1..] == s[1..] + "\n";
    }
  }

  /**
   * The decoder alone would accept a second text for every cursor, so the comparison with the
   * re-encoded bytes is needed for uniqueness.
   */
  lemma DecoderAloneIsNotUnique(c: EventCursor)
    ensures var s := EncodeEventCursor(c) + "\n";
            && Unbase64(s) == Some(Pack(c))
            && ParseEventCursor(Some([s])) == Err(InvalidQuery)
  {
    Unbase64Base64(Pack(c));
    ReadSkipsLineBreak(EncodeEventCursor(c));
  }

  /** Overwrites part of a buffer. */
  method Put(buffer: array<byte>, at: nat, bs: seq<byte>)
    requires at + |bs| <= buffer.Length
    modifies buffer
    ensures buffer[..] == old(buffer[..at]) + bs + old(buffer[at + |bs|..])
  {
    var i := 0;
    while i < |bs|
      invariant 0 <= i <= |bs|
      invariant buffer[..] == old(buffer[..at]) + bs[..i] + old(buffer[at + i..])
    {
      ghost var before := buffer[..];
      buffer[at + i] := bs[i];
      assert buffer[..] == before[at + i := bs[i]];
      i := i + 1;
    }
  }

  /** The cursor is written field by field into one buffer. */
  method EncodeCursor(c: EventCursor) returns (s: string)
    ensures s == EncodeEventCursor(c)
  {
    var encoded := new byte[ENCODED_SIZE](_ => 0);
    Put(encoded, 0, BigEndian(c.blockNumber, 8));
    Put(encoded, 8, BigEndian(c.blockHash, 32));
    Put(encoded, 40, BigEndian(c.logIndex, 4));
    assert encoded[..] == Pack(c);
    return Base64(encoded[..]);
  }
}
