/** The armored form of section 6.2 of RFC 4880, and that the decoder undoes it. */
module ArmorRoundTrip {
  import opened Wrappers
  import opened Crc24
  import opened Bytes
  import opened Armor
  import opened ArmorCompleteness
  import Radix64

  type Header = (Text, Text)

  function Eol(crlf: bool): Text {
    if crlf then [CR, NL] else [NL]
  }

  /** "Key: Value" lines. */
  function HeaderLines(headers: seq<Header>, eol: Text): Text {
    if headers == [] then []
    else headers[0].0 + [COLON, 32] + headers[0].1 + eol + HeaderLines(headers[1..], eol)
  }

  /** The headers as a map, added to those in m: a repeated key keeps its last value. */
  function HeaderMap(headers: seq<Header>, m: map<Text, Text>): map<Text, Text> {
    if headers == [] then m else HeaderMap(headers[1..], m[headers[0].0 := headers[0].1])
  }

  function CrcBytes(crc: nat): Text
    requires crc < BIT24
  {
    [crc / 0x10000, crc / 0x100 % 0x100, crc % 0x100]
  }

  function ChecksumText(bytes: Text): Text {
    CrcBytes(Checksum(bytes))
  }

  /** A blank line, the body and the checksum line. body is the radix-64 text in any layout of
      lines. */
  function Front(bytes: Text, body: Text, eol: Text): Text {
    eol + body + eol + [Radix64.PAD] + Radix64.Encode(ChecksumText(bytes)) + eol
  }

  /** What follows the headers. */
  function Trailer(kind: Text, bytes: Text, body: Text, eol: Text): Text {
    Front(bytes, body, eol) + END + kind + DASHES + eol
  }

  function Armored(kind: Text, headers: seq<Header>, bytes: Text, body: Text, eol: Text): Text {
    BEGIN + kind + DASHES + eol + HeaderLines(headers, eol) + Trailer(kind, bytes, body, eol)
  }

  /** A header that survives: trimmed, on one line, and no colon in the key. */
  predicate Plain(h: Header) {
    && TrimSpace(h.0) == h.0 && TrimSpace(h.1) == h.1
    && NL !in h.0 && NL !in h.1 && COLON !in h.0
  }

  // ----- Lines -----

  lemma TrimRightKeeps(s: Text)
    requires s != [] ==> !IsBlank(s[|s| - 1])
    ensures TrimRight(s) == s
  {}

  /** Where the first line of a text ends. */
  lemma FirstEndOfLine(line: Text, rest: Text)
    requires NL !in line
    ensures Find(line + [NL] + rest, NL) == |line|
    ensures (line + [NL] + rest)[..|line|] == line && (line + [NL] + rest)[|line| + 1..] == rest
  {
    hide Find;
    var data := line + [NL] + rest;
    assert data[|line|] == NL;
    assert forall j | 0 <= j < |line| :: data[j] == line[j];
  }

  lemma ReadLineLf(line: Text, t: Text)
    requires NL !in line && (line != [] ==> !IsBlank(line[|line| - 1]) && line[|line| - 1] != CR)
    ensures GetLine(line + [NL] + t) == (line, t)
  {
    hide TrimRight, Find;
    FirstEndOfLine(line, t);
    TrimRightKeeps(line);
    assert line != [] ==> (line + [NL] + t)[|line| - 1] == line[|line| - 1];
  }

  lemma ReadLineCrLf(line: Text, t: Text)
    requires NL !in line && (line != [] ==> !IsBlank(line[|line| - 1]))
    ensures GetLine(line + [CR, NL] + t) == (line, t)
  {
    hide TrimRight, Find;
    var full := line + [CR];
    assert line + [CR, NL] + t == full + [NL] + t;
    FirstEndOfLine(full, t);
    TrimRightKeeps(line);
    assert (full + [NL] + t)[|line|] == CR;
    assert (full + [NL] + t)[..|line|] == line;
  }

  /** A line without trailing white space is read back whole. */
  lemma ReadLine(line: Text, crlf: bool, t: Text)
    requires NL !in line && (line != [] ==> !IsBlank(line[|line| - 1]) && line[|line| - 1] != CR)
    ensures GetLine(line + Eol(crlf) + t) == (line, t)
  {
    hide GetLine;
    if crlf {
      ReadLineCrLf(line, t);
    } else {
      ReadLineLf(line, t);
    }
  }

  // ----- Headers -----

  lemma {:induction false} TrimmedEnd(s: Text)
    ensures SpaceAtEnd(TrimSpaceRight(s)) == 0
    decreases |s|
  {
    var n := SpaceAtEnd(s);
    if n != 0 {
      TrimmedEnd(s[..|s| - n]);
    }
  }

  lemma TrimmedLast(s: Text)
    requires TrimSpace(s) == s && s != []
    ensures !IsBlank(s[|s| - 1]) && s[|s| - 1] != CR
  {
    TrimmedEnd(TrimSpaceLeft(s));
  }

  lemma TrimSpaceBlankFirst(s: Text)
    ensures TrimSpace([32] + s) == TrimSpace(s)
  {}

  lemma ColonEndsKey(key: Text, more: Text)
    requires COLON !in key
    ensures Find(key + [COLON] + more, COLON) == |key|
  {
    var line := key + [COLON] + more;
    FindAppend(key, [COLON] + more, COLON);
    assert line == key + ([COLON] + more);
  }

  /** One header line is read back as its key and value. */
  lemma ReadHeader(h: Header, crlf: bool, t: Text, m: map<Text, Text>)
    requires Plain(h)
    ensures ReadHeaders(h.0 + [COLON, 32] + h.1 + Eol(crlf) + t, m) == ReadHeaders(t, m[h.0 := h.1])
  {
    hide TrimSpace, Eol, GetLine, Find;
    var key, val := h.0, h.1;
    var data := key + [COLON, 32] + val + Eol(crlf) + t;
    var more := if val == [] then [] else [32] + val;
    var line := key + [COLON] + more;
    HeaderLine(h, crlf, t);
    assert line == if val == [] then key + [COLON] else key + [COLON, 32] + val;
    ColonEndsKey(key, more);
    assert line[..|key|] == key && line[|key| + 1..] == more;
    TrimSpaceBlankFirst(val);
  }

  lemma HeaderLine(h: Header, crlf: bool, t: Text)
    requires Plain(h)
    ensures GetLine(h.0 + [COLON, 32] + h.1 + Eol(crlf) + t)
            == (if h.1 == [] then h.0 + [COLON] else h.0 + [COLON, 32] + h.1, t)
  {
    hide TrimSpace;
    if h.1 == [] {
      BlankEnd(h.0 + [COLON], crlf, t);
      assert h.0 + [COLON] + [32] == h.0 + [COLON, 32] + h.1;
    } else {
      TrimmedLast(h.1);
      ReadLine(h.0 + [COLON, 32] + h.1, crlf, t);
    }
  }

  lemma BlankEnd(line: Text, crlf: bool, t: Text)
    requires NL !in line && line != [] && line[|line| - 1] == COLON
    ensures GetLine(line + [32] + Eol(crlf) + t) == (line, t)
  {
    var data, n, full := line + [32] + Eol(crlf) + t, |line| + 1, line + [32];
    FindAppend(full, Eol(crlf) + t, NL);
    assert full + (Eol(crlf) + t) == data;
    assert full[..|line|] == line;
    TrimRightKeeps(line);
    assert TrimRight(full) == line;
    if crlf {
      assert data[..n] == full && data[n] == CR && data[n + 1] == NL && data[n + 2..] == t;
    } else {
      assert data[..n] == full && data[n] == NL && data[n + 1..] == t && data[n - 1] == 32;
    }
  }

  lemma {:induction false} ReadAllHeaders(headers: seq<Header>, crlf: bool, t: Text, m: map<Text, Text>)
    requires forall h | h in headers :: Plain(h)
    requires t != [] && COLON !in GetLine(t).0
    ensures ReadHeaders(HeaderLines(headers, Eol(crlf)) + t, m) == Some((HeaderMap(headers, m), t))
  {
    hide GetLine, TrimSpace, Eol;
    if headers == [] {
      assert HeaderLines(headers, Eol(crlf)) + t == t;
    } else {
      var h, more := headers[0], headers[1..];
      var next := HeaderLines(more, Eol(crlf)) + t;
      assert HeaderLines(headers, Eol(crlf)) + t == h.0 + [COLON, 32] + h.1 + Eol(crlf) + next;
      assert Plain(h);
      ReadHeader(h, crlf, next, m);
      ReadAllHeaders(more, crlf, t, m[h.0 := h.1]);
    }
  }

  // ----- Body and checksum -----

  lemma LastOfJoin<T>(a: seq<T>, b: seq<T>)
    requires b != []
    ensures var n := |b| - 1; (a + b)[..|a + b| - 1] == a + b[..n] && (a + b)[|a + b| - 1] == b[n]
  {}

  lemma Assoc<T>(a: seq<T>, b: seq<T>, c: seq<T>)
    ensures (a + b) + c == a + (b + c)
  {}

  lemma {:induction false} CompactAppend(a: Text, b: Text)
    ensures Compact(a + b) == Compact(a) + Compact(b)
  {
    hide IsWhite;
    if b == [] {
      assert a + b == a;
    } else {
      var n := |b| - 1;
      CompactAppend(a, b[..n]);
      LastOfJoin(a, b);
      Assoc(Compact(a), Compact(b[..n]), if IsWhite(b[n]) then [] else [b[n]]);
    }
  }

  lemma CompactEol(crlf: bool)
    ensures Compact(Eol(crlf)) == []
  {
    assert [CR, NL][..1] == [CR] && [CR][..0] == [] && [NL][..0] == [];
    assert Compact([CR]) == [];
  }

  lemma {:induction false} CompactKeeps(s: Text)
    ensures forall c | c in s :: IsWhite(c) || c in Compact(s)
  {
    if s != [] {
      var n := |s| - 1;
      CompactKeeps(s[..n]);
      assert s == s[..n] + [s[n]];
    }
  }

  lemma CrcFieldRoundTrip(crc: nat)
    requires crc < BIT24
    ensures Crc24Field(CrcBytes(crc)) == crc
  {}

  lemma ChecksumSmall(bytes: Text)
    ensures Checksum(bytes) < BIT24
  {}

  lemma EncodeThree(b: Text)
    requires |b| == 3
    ensures |Radix64.Encode(b)| == 4
  {}

  lemma ParseDataRoundTrip(bytes: Text)
    ensures ParseData(Radix64.Encode(bytes) + [Radix64.PAD] + Radix64.Encode(ChecksumText(bytes)))
            == Some((bytes, Checksum(bytes)))
  {
    hide Radix64.Encode, Radix64.Decode, Checksum;
    var c := ChecksumText(bytes);
    var e, f := Radix64.Encode(bytes), Radix64.Encode(c);
    var text := e + [Radix64.PAD] + f;
    EncodeThree(c);
    Radix64.RoundTrip(bytes);
    Radix64.RoundTrip(c);
    assert Checksum(bytes) < BIT24 by { ChecksumSmall(bytes); }
    CrcFieldRoundTrip(Checksum(bytes));
    assert text[|text| - 4..] == f;
    assert text[..|text| - 5] == e;
    assert text[|text| - 5] == Radix64.PAD;
  }

  lemma RadixClean(b: Text)
    ensures Compact([Radix64.PAD] + Radix64.Encode(b)) == [Radix64.PAD] + Radix64.Encode(b)
  {
    hide Radix64.Encode, Compact;
    Radix64.EncodeChars(b);
    CleanIsCompact([Radix64.PAD] + Radix64.Encode(b));
  }

  /** White space between the parts leaves nothing. */
  lemma CompactSum(eol: Text, body: Text, q: Text)
    requires Compact(eol) == []
    ensures Compact(eol + body + eol + q + eol) == Compact(body) + Compact(q)
  {
    hide Compact;
    CompactBlank(body, eol);
    CompactBlank(eol + body, eol);
    CompactAppend(eol + body + eol, q);
    CompactBlank(eol + body + eol + q, eol);
  }

  lemma CompactBlank(s: Text, eol: Text)
    requires Compact(eol) == []
    ensures Compact(s + eol) == Compact(s) == Compact(eol + s)
  {
    hide Compact;
    CompactAppend(s, eol);
    CompactAppend(eol, s);
    assert Compact(s) + [] == Compact(s) == [] + Compact(s);
  }

  lemma CompactNewline()
    ensures Compact([NL]) == []
  {}

  /** Everything in front of the END marker except its line end, white space removed. */
  lemma CompactBody(bytes: Text, body: Text, crlf: bool, front: Text)
    requires Compact(body) == Radix64.Encode(bytes)
    requires front + [NL] == Front(bytes, body, Eol(crlf))
    ensures Compact(front)
            == Radix64.Encode(bytes) + [Radix64.PAD] + Radix64.Encode(ChecksumText(bytes))
  {
    hide Radix64.Encode, Checksum, Compact, Eol, ChecksumText, Front;
    var eol, q := Eol(crlf), [Radix64.PAD] + Radix64.Encode(ChecksumText(bytes));
    RadixClean(ChecksumText(bytes));
    CompactEol(crlf);
    CompactNewline();
    CompactBlank(front, [NL]);
    CompactSum(eol, body, q);
    FrontIs(bytes, body, eol);
  }

  lemma FrontIs(bytes: Text, body: Text, eol: Text)
    ensures Front(bytes, body, eol)
            == eol + body + eol + ([Radix64.PAD] + Radix64.Encode(ChecksumText(bytes))) + eol
  {
    hide Radix64.Encode, ChecksumText;
  }

  /** No dash in front of the END marker. */
  lemma NoDash(bytes: Text, body: Text, crlf: bool)
    requires Compact(body) == Radix64.Encode(bytes)
    ensures 45 !in Front(bytes, body, Eol(crlf))
  {
    hide Radix64.Encode, Checksum, Compact;
    CompactKeeps(body);
    Radix64.EncodeChars(bytes);
    Radix64.EncodeChars(ChecksumText(bytes));
  }

  /** A text without dashes and with a final line end, then an END marker: that is the first. */
  lemma FirstEnd(pre: Text, t: Text)
    requires pre != [] && pre[|pre| - 1] == NL && 45 !in pre
    ensures Index(pre + END + t, [NL] + END) == Some(|pre| - 1)
    ensures !HasPrefix(pre + END + t, END)
  {
    var data, pat, n := pre + END + t, [NL] + END, |pre| - 1;
    assert data[n..n + |pat|] == pat by { assert data[n..] == pat + t; }
    assert At(data, pat, n);
    assert pat[1] == 45;
    assert forall j | 0 <= j <= n :: data[j] == pre[j] && data[j] != 45;
    var i := Index(data, pat).value;
    AtElements(data, pat, i);
    assert data[i + 1] == 45;
    assert END[0] == 45;
  }

  lemma ParseAtSucceeds(kind: Text, headers: map<Text, Text>, text: Text, e: nat, t: nat,
                        bytes: Text, tail: Text)
    requires e + |END| <= t && t + |kind| + 5 <= |text|
    requires text[t..t + |kind| + 5] == kind + DASHES
    requires GetLine(text[t + |kind| + 5..]).0 == []
    requires ParseData(Compact(text[..e])) == Some((bytes, Checksum(bytes)))
    requires GetLine(text[e + |END|..]).1 == tail
    ensures ParseAt(kind, headers, text, e, t)
            == Some((Block(kind, headers, bytes, Checksum(bytes)), tail))
  {
    hide Checksum, GetLine, ParseData, Compact;
    assert HasPrefix(kind + DASHES, kind);
    assert HasSuffix(kind + DASHES, DASHES);
  }

  lemma ParseTrailer(kind: Text, headers: map<Text, Text>, bytes: Text, body: Text, crlf: bool,
                     tail: Text)
    requires NL !in kind && Compact(body) == Radix64.Encode(bytes)
    ensures ParseBody(kind, headers, Trailer(kind, bytes, body, Eol(crlf)) + tail)
            == Some((Block(kind, headers, bytes, Checksum(bytes)), tail))
  {
    hide Radix64.Encode, Checksum, GetLine, ParseData, Compact, Index, ParseAt, Eol, Front, Trailer;
    var eol, close := Eol(crlf), kind + DASHES;
    var pre, u := Front(bytes, body, eol), close + eol + tail;
    var text, e, t := pre + END + u, |pre| - 1, |pre| + |END|;
    FrontEnds(bytes, body, crlf);
    TrailerParts(kind, bytes, body, eol, tail);
    NoDash(bytes, body, crlf);
    FirstEnd(pre, u);
    AroundEnd(pre, u, |close|);
    CompactBody(bytes, body, crlf, text[..e]);
    ParseDataRoundTrip(bytes);
    CloseLine(kind, crlf, tail);
    ParseAtSucceeds(kind, headers, text, e, t, bytes, tail);
  }

  lemma TrailerParts(kind: Text, bytes: Text, body: Text, eol: Text, tail: Text)
    ensures Trailer(kind, bytes, body, eol) + tail
            == Front(bytes, body, eol) + END + (kind + DASHES + eol + tail)
  {}

  lemma FrontEnds(bytes: Text, body: Text, crlf: bool)
    ensures var pre := Front(bytes, body, Eol(crlf)); pre != [] && pre[|pre| - 1] == NL
  {}

  lemma AroundEnd(pre: Text, u: Text, k: nat)
    requires pre != [] && pre[|pre| - 1] == NL && k <= |u|
    ensures var text, e, t := pre + END + u, |pre| - 1, |pre| + |END|;
            && text[..e] + [NL] == pre
            && text[e + |END|..] == [32] + u
            && text[t..t + k] == u[..k] && text[t + k..] == u[k..]
  {}

  lemma CloseLine(kind: Text, crlf: bool, tail: Text)
    requires NL !in kind
    ensures var close := kind + DASHES;
            && (close + Eol(crlf) + tail)[..|close|] == close
            && GetLine((close + Eol(crlf) + tail)[|close|..]).0 == []
            && GetLine([32] + (close + Eol(crlf) + tail)).1 == tail
  {
    hide GetLine, Eol;
    var close, eol := kind + DASHES, Eol(crlf);
    assert (close + eol + tail)[|close|..] == [] + eol + tail;
    ReadLine([], crlf, tail);
    assert [32] + (close + eol + tail) == ([32] + close) + eol + tail;
    ReadLine([32] + close, crlf, tail);
  }

  // ----- The whole -----

  /** The text after the BEGIN marker of an armored form is parsed to the block. */
  lemma ArmoredParses(kind: Text, headers: seq<Header>, bytes: Text, body: Text, crlf: bool, tail: Text)
    requires NL !in kind && forall h | h in headers :: Plain(h)
    requires Compact(body) == Radix64.Encode(bytes)
    ensures var data := Armored(kind, headers, bytes, body, Eol(crlf)) + tail;
      && HasPrefix(data, BEGIN)
      && Attempt(data[|BEGIN|..]) == Found(Block(kind, HeaderMap(headers, map[]), bytes, Checksum(bytes)), tail)
  {
    hide Radix64.Encode, Checksum, GetLine, ParseBody, Compact, HeaderLines, Trailer, ReadHeaders, Armored, Eol, HeaderMap;
    var line := kind + DASHES;
    var rest := Trailer(kind, bytes, body, Eol(crlf)) + tail;
    ArmoredIs(kind, headers, bytes, body, Eol(crlf), tail);
    TypeLine(kind, crlf, HeaderLines(headers, Eol(crlf)) + rest);
    TrailerStartsBlank(kind, bytes, body, crlf, tail);
    ReadAllHeaders(headers, crlf, rest, map[]);
    ParseTrailer(kind, HeaderMap(headers, map[]), bytes, body, crlf, tail);
  }

  lemma ArmoredIs(kind: Text, headers: seq<Header>, bytes: Text, body: Text, eol: Text, tail: Text)
    ensures var data := Armored(kind, headers, bytes, body, eol) + tail;
      && HasPrefix(data, BEGIN)
      && data[|BEGIN|..] == (kind + DASHES) + eol + (HeaderLines(headers, eol) + (Trailer(kind, bytes, body, eol) + tail))
  {
    hide HeaderLines, Trailer;
    var data := Armored(kind, headers, bytes, body, eol) + tail;
    assert data == BEGIN + ((kind + DASHES) + eol + (HeaderLines(headers, eol) + (Trailer(kind, bytes, body, eol) + tail)));
  }

  lemma TypeLine(kind: Text, crlf: bool, more: Text)
    requires NL !in kind
    ensures GetLine((kind + DASHES) + Eol(crlf) + more) == (kind + DASHES, more)
    ensures HasSuffix(kind + DASHES, DASHES) && (kind + DASHES)[..|kind + DASHES| - |DASHES|] == kind
  {
    hide GetLine;
    ReadLine(kind + DASHES, crlf, more);
  }

  /** Decoding undoes encoding: for every type and every set of plain headers, every byte string,
      every layout of the radix-64 text, both line ends, and whatever follows. */
  lemma RoundTrip(kind: Text, headers: seq<Header>, bytes: Text, body: Text, crlf: bool, tail: Text)
    requires NL !in kind && forall h | h in headers :: Plain(h)
    requires Compact(body) == Radix64.Encode(bytes)
    ensures Decoded(Armored(kind, headers, bytes, body, Eol(crlf)) + tail)
            == (Some(Block(kind, HeaderMap(headers, map[]), bytes, Checksum(bytes))), tail)
  {
    hide Attempt, Armored, Checksum, HeaderMap, Compact;
    ArmoredParses(kind, headers, bytes, body, crlf, tail);
  }

  lemma EmptyChecksum()
    ensures Checksum([]) == 0xb704ce && ChecksumText([]) == [0xb7, 0x04, 0xce]
  {}

  lemma EmptySum()
    ensures Radix64.Encode([0xb7, 0x04, 0xce]) == Ascii("twTO")
  {
    Radix64.EncodeThree(0xb7, 0x04, 0xce, []);
    assert [0xb7, 0x04, 0xce] + [] == [0xb7, 0x04, 0xce] && Radix64.Encode([]) == [];
    Radix64.AlphabetIs(45);
    Radix64.AlphabetIs(48);
    Radix64.AlphabetIs(19);
    Radix64.AlphabetIs(14);
    hide Radix64.CharOf, Radix64.Encode;
  }

  function KeyBlockKind(): Text {
    Ascii("PGP PUBLIC KEY BLOCK")
  }

  /** The smallest file that gpg would read, byte for byte: a key block without packets. */
  function KeyBlockFile(): Text {
    Ascii("-----BEGIN ") + KeyBlockKind() + Ascii("-----\n") + Ascii("\n\n=twTO\n")
    + Ascii("-----END ") + KeyBlockKind() + Ascii("-----\n")
  }

  /** The markers of the armor, as text. */
  lemma MarkersAre()
    ensures Ascii("-----BEGIN ") == BEGIN && Ascii("-----END ") == END && Ascii("-----\n") == DASHES + [NL]
  {}

  lemma MiddleIs()
    ensures Ascii("\n\n=twTO\n") == Front([], [], [NL])
  {
    hide Radix64.Encode, Checksum, ChecksumText;
    EmptyChecksum();
    EmptySum();
  }

  lemma KindIs()
    ensures NL !in KeyBlockKind() && |KeyBlockKind()| == 20
  {}

  lemma FileIs()
    ensures KeyBlockFile() == Armored(KeyBlockKind(), [], [], [], [NL])
  {
    hide KeyBlockKind, Front, HeaderLines;
    MarkersAre();
    MiddleIs();
    NoText();
    var k := KeyBlockKind();
    Joined(BEGIN + k, DASHES, [NL], Front([], [], [NL]), END + k);
    hide Ascii;
  }

  lemma Joined<T>(a: seq<T>, b: seq<T>, c: seq<T>, d: seq<T>, e: seq<T>)
    ensures a + (b + c) + d + e + (b + c) == a + b + c + [] + (d + e + b + c)
  {}

  /** It is read as such: the start value, the polynomial's digits, the markers and the alphabet are
      those of RFC 4880. */
  lemma EmptyKeyBlock(tail: Text)
    ensures Decoded(KeyBlockFile() + tail) == (Some(Block(KeyBlockKind(), map[], [], 0xb704ce)), tail)
  {
    hide Decoded, Checksum, Radix64.Encode, Compact, HeaderLines, HeaderMap, Armored, KeyBlockKind, KeyBlockFile;
    EmptyChecksum();
    NoText();
    KindIs();
    FileIs();
    RoundTrip(KeyBlockKind(), [], [], [], false, tail);
  }

  lemma NoText()
    ensures Compact([]) == [] == Radix64.Encode([]) && HeaderLines([], [NL]) == [] && HeaderMap([], map[]) == map[]
  {}

  /** A block whose type is a colon, with nothing after it. */
  function ColonBlock(): Text {
    Armored([COLON], [], [], [], [NL])
  }

  /** The blocks that may be missed do exist: a file of one block, and junk that hides it. */
  lemma ColonBlockIsHidden()
    ensures BlockAtHead(ColonBlock()) && COLON in KindAtHead(ColonBlock())
    ensures |Blocks(ColonBlock())| == 1 && Blocks(Decoy(ColonBlock()) + ColonBlock()) == []
  {
    hide Attempt, Checksum, Blocks, Armored;
    ArmoredParses([COLON], [], [], [], false, []);
    assert Armored([COLON], [], [], [], Eol(false)) + [] == ColonBlock();
    DecoyHides(ColonBlock());
    AtMarker(ColonBlock());
    NoBlocks();
  }

  lemma TrailerStartsBlank(kind: Text, bytes: Text, body: Text, crlf: bool, tail: Text)
    ensures var rest := Trailer(kind, bytes, body, Eol(crlf)) + tail;
            rest != [] && GetLine(rest).0 == []
  {
    hide Radix64.Encode, Checksum, GetLine;
    var eol := Eol(crlf);
    var more := body + eol + [Radix64.PAD] + Radix64.Encode(ChecksumText(bytes)) + eol
                + END + kind + DASHES + eol + tail;
    assert Trailer(kind, bytes, body, eol) + tail == [] + eol + more;
    ReadLine([], crlf, more);
  }
}
