/** The OpenPGP ASCII armor decoder (xpki/armor/armor.go), section 6.2 of RFC 4880. */
module Armor {
  import opened Wrappers
  import opened Crc24
  import opened Bytes
  import Radix64

  datatype Block = Block(kind: Text, headers: map<Text, Text>, bytes: Text, crc: nat)

  /** "-----BEGIN " */
  const BEGIN: Text := [45, 45, 45, 45, 45, 66, 69, 71, 73, 78, 32]
  /** "-----END " */
  const END: Text := [45, 45, 45, 45, 45, 69, 78, 68, 32]
  /** "-----" */
  const DASHES: Text := [45, 45, 45, 45, 45]

  /** The first line, without its line end and trailing blanks, and what follows it. */
  function GetLine(data: Text): (r: (Text, Text))
    ensures |r.0| <= |data| && |r.1| <= |data| && (data != [] ==> |r.1| < |data|)
  {
    var i := Find(data, NL);
    if i == |data| then (TrimRight(data), [])
    else if i > 0 && data[i - 1] == CR then (TrimRight(data[..i - 1]), data[i + 1..])
    else (TrimRight(data[..i]), data[i + 1..])
  }

  predicate IsWhite(c: byte) {
    c == 32 || c == 9 || c == CR || c == NL
  }

  /** The bytes of data that are not white space, in order. */
  function Compact(data: Text): Text {
    if data == [] then []
    else Compact(data[..|data| - 1]) + (if IsWhite(data[|data| - 1]) then [] else [data[|data| - 1]])
  }

  method RemoveWhitespace(data: Text) returns (result: Text)
    ensures result == Compact(data)
  {
    var buffer := new byte[|data|];
    var n := 0;
    for k := 0 to |data|
      invariant 0 <= n <= k
      invariant buffer[..n] == Compact(data[..k])
    {
      assert data[..k + 1][..k] == data[..k];
      var b := data[k];
      if b == 32 || b == 9 || b == CR || b == NL {
        continue;
      }
      buffer[n] := b;
      n := n + 1;
    }
    assert data[..|data|] == data;
    result := buffer[..n];
  }

  /** Where the text after the next BEGIN marker starts. At the very beginning of the data the
      marker needs no line end before it. */
  function FindBegin(data: Text): (r: Option<nat>)
    ensures r.Some? ==> |BEGIN| <= r.value <= |data|
  {
    if HasPrefix(data, BEGIN) then Some(|BEGIN|)
    else match Index(data, [NL] + BEGIN)
         case Some(i) => Some(i + 1 + |BEGIN|)
         case None => None
  }

  /** The header lines at the front of rest, added to those read before. None: the data ended
      before a line that is no header. */
  function ReadHeaders(rest: Text, headers: map<Text, Text>): (r: Option<(map<Text, Text>, Text)>)
    ensures r.Some? ==> |r.value.1| <= |rest|
    decreases |rest|
  {
    if rest == [] then None
    else
      var (line, next) := GetLine(rest);
      var i := Find(line, COLON);
      if i == |line| then Some((headers, rest))
      else ReadHeaders(next, headers[TrimSpace(line[..i]) := TrimSpace(line[i + 1..])])
  }

  /** The body, the END line and the checksum: the block and what follows it, or None. */
  function ParseBody(kind: Text, headers: map<Text, Text>, rest: Text): (r: Option<(Block, Text)>)
    ensures r.Some? ==> |r.value.1| < |rest|
    ensures r.Some? ==> r.value.0.kind == kind && r.value.0.headers == headers
  {
    if headers == map[] && HasPrefix(rest, END) then ParseAt(kind, headers, rest, 0, |END|)
    else match Index(rest, [NL] + END)
         case None => None
         case Some(i) => ParseAt(kind, headers, rest, i, i + 1 + |END|)
  }

  /** The rest of the work once the END marker is found: the body ends at endIndex and the type
      starts again at trailer. */
  function ParseAt(kind: Text, headers: map<Text, Text>, rest: Text, endIndex: nat, trailer: nat):
    (r: Option<(Block, Text)>)
    requires endIndex + |END| <= trailer <= |rest|
    ensures r.Some? ==> |r.value.1| < |rest|
    ensures r.Some? ==> r.value.0.kind == kind && r.value.0.headers == headers
  {
    var n := |kind| + |DASHES|;
    if trailer + n > |rest| then None
    else if !HasPrefix(rest[trailer..trailer + n], kind)
      || !HasSuffix(rest[trailer..trailer + n], DASHES) then None
    else if GetLine(rest[trailer + n..]).0 != [] then None
    else match ParseData(Compact(rest[..endIndex]))
         case None => None
         case Some((bytes, crc)) =>
           Some((Block(kind, headers, bytes, crc), GetLine(rest[endIndex + |END|..]).1))
  }

  /** The three bytes of a checksum line as one number. */
  function Crc24Field(c: Text): nat
    requires |c| == 3
  {
    var hi, mid, lo: nat := c[0], c[1], c[2];
    hi * 0x10000 + mid * 0x100 + lo
  }

  /** Body and checksum out of the text between the headers and the END line. */
  function ParseData(text: Text): (r: Option<(Text, nat)>)
    ensures r.Some? ==> r.value.1 == Checksum(r.value.0)
  {
    if |text| < 5 || text[|text| - 5] != Radix64.PAD then None
    else match Radix64.Decode(text[|text| - 4..])
         case None => None
         case Some(c) =>
           if |c| != 3 then None
           else
             var crc := Crc24Field(c);
             match Radix64.Decode(text[..|text| - 5])
             case None => None
             case Some(bytes) => if crc == Checksum(bytes) then Some((bytes, crc)) else None
  }

  /** What becomes of the text after a BEGIN marker: a block and what follows it, a failure that
      starts over at a later position, or the end of the data. */
  datatype Outcome = Found(block: Block, after: Text) | Retry(from: Text) | GiveUp

  function Attempt(body: Text): (r: Outcome)
    ensures r.Found? ==> |r.after| < |body|
    ensures r.Retry? ==> |r.from| <= |body|
  {
    var (typeLine, rest) := GetLine(body);
    if !HasSuffix(typeLine, DASHES) then Retry(rest)
    else
      var kind := typeLine[..|typeLine| - |DASHES|];
      match ReadHeaders(rest, map[])
      case None => GiveUp
      case Some((headers, text)) =>
        match ParseBody(kind, headers, text)
        case None => Retry(text)
        case Some((block, after)) => Found(block, after)
  }

  /** The next block of data and what follows it; without one, None and all of data. */
  function Decoded(data: Text): (r: (Option<Block>, Text))
    ensures r.0.None? ==> r.1 == data
    ensures r.0.Some? ==> |r.1| < |data|
    decreases |data|
  {
    match FindBegin(data)
    case None => (None, data)
    case Some(k) =>
      match Attempt(data[k..])
      case Found(block, after) => (Some(block), after)
      case GiveUp => (None, data)
      case Retry(from) =>
        var (p, rest) := Decoded(from);
        if p.None? then (None, data) else (p, rest)
  }

  method Decode(data: Text) returns (p: Option<Block>, rest: Text)
    ensures (p, rest) == Decoded(data)
    decreases |data|, 0
  {
    hide GetLine, ParseBody, FindBegin, ReadHeaders;
    var k := FindBegin(data);
    if k.None? {
      return None, data;
    }
    var (typeLine, next) := GetLine(data[k.value..]);
    if !HasSuffix(typeLine, DASHES) {
      p, rest := DecodeError(data, next);
      return;
    }
    var kind := typeLine[..|typeLine| - |DASHES|];
    var h := DecodeHeaders(next);
    if h.None? {
      return None, data;
    }
    var found := DecodeBody(kind, h.value.0, h.value.1);
    if found.None? {
      p, rest := DecodeError(data, h.value.1);
      return;
    }
    return Some(found.value.0), found.value.1;
  }

  method DecodeHeaders(start: Text) returns (r: Option<(map<Text, Text>, Text)>)
    ensures r == ReadHeaders(start, map[])
  {
    hide GetLine, TrimSpace;
    var headers: map<Text, Text> := map[];
    var rest := start;
    while true
      invariant ReadHeaders(start, map[]) == ReadHeaders(rest, headers)
      decreases |rest|
    {
      if |rest| == 0 {
        return None;
      }
      var (line, next) := GetLine(rest);
      var i := Find(line, COLON);
      if i == |line| {
        return Some((headers, rest));
      }
      headers := headers[TrimSpace(line[..i]) := TrimSpace(line[i + 1..])];
      rest := next;
    }
  }

  method DecodeBody(kind: Text, headers: map<Text, Text>, rest: Text)
    returns (r: Option<(Block, Text)>)
    ensures r == ParseBody(kind, headers, rest)
  {
    hide GetLine, ParseData, Compact;
    var endIndex, trailer;
    if |headers| == 0 && HasPrefix(rest, END) {
      endIndex, trailer := 0, |END|;
    } else {
      var i := Index(rest, [NL] + END);
      if i.None? {
        return None;
      }
      endIndex, trailer := i.value, i.value + 1 + |END|;
    }
    var endTrailer := rest[trailer..];
    var n := |kind| + |DASHES|;
    if |endTrailer| < n {
      return None;
    }
    var restOfEndLine := endTrailer[n..];
    assert restOfEndLine == rest[trailer + n..];
    assert endTrailer[..n] == rest[trailer..trailer + n];
    if !HasPrefix(endTrailer[..n], kind) || !HasSuffix(endTrailer[..n], DASHES) {
      return None;
    }
    if GetLine(restOfEndLine).0 != [] {
      return None;
    }
    var text := RemoveWhitespace(rest[..endIndex]);
    CompactIsClean(rest[..endIndex]);
    var data := DecodeData(text);
    if data.None? {
      return None;
    }
    return Some((Block(kind, headers, data.value.0, data.value.1),
                 GetLine(rest[endIndex + |END|..]).1));
  }

  method DecodeData(text: Text) returns (r: Option<(Text, nat)>)
    requires forall c | c in text :: !IsWhite(c)
    ensures r == ParseData(text)
  {
    hide Radix64.Decode, Crc, Compact;
    if |text| < 5 || text[|text| - 5] != Radix64.PAD {
      return None;
    }
    var data := RemoveWhitespace(text[..|text| - 5]);
    CleanIsCompact(text[..|text| - 5]);
    var c := Radix64.Decode(text[|text| - 4..]);
    if c.None? || |c.value| != 3 {
      return None;
    }
    var expected := Crc24Field(c.value);
    var bytes := Radix64.Decode(data);
    if bytes.None? {
      return None;
    }
    var crc := Crc24.Crc24(INIT, bytes.value);
    if expected != crc % BIT24 {
      return None;
    }
    return Some((bytes.value, expected));
  }

  method DecodeError(data: Text, rest: Text) returns (p: Option<Block>, after: Text)
    requires |rest| < |data|
    ensures var d := Decoded(rest);
            (p, after) == if d.0.None? then (None, data) else d
    decreases |rest|, 1
  {
    p, after := Decode(rest);
    if p.None? {
      after := data;
    }
  }

  lemma CompactIsClean(s: Text)
    ensures forall c | c in Compact(s) :: !IsWhite(c)
  {}

  lemma {:induction false} CleanIsCompact(s: Text)
    requires forall c | c in s :: !IsWhite(c)
    ensures Compact(s) == s
  {
    if s != [] {
      CleanIsCompact(s[..|s| - 1]);
    }
  }

  // ----- Repeated decoding -----

  /** The blocks that repeated decoding yields. */
  function Blocks(data: Text): seq<Block>
    decreases |data|
  {
    var (p, rest) := Decoded(data);
    if p.None? then [] else [p.value] + Blocks(rest)
  }

  lemma NoBlocks()
    ensures Blocks([]) == []
  {}
}
