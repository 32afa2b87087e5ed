/** Where the armor decoder makes progress, and when it finds a block (the claim in the comment
    of decodeError, xpki/armor/armor.go). */
module ArmorCompleteness {
  import opened Wrappers
  import opened Crc24
  import opened Gf2
  import opened Bytes
  import opened Armor
  import Radix64

  /** Nothing, or whole lines. */
  predicate Lines(s: Text) {
    s == [] || s[|s| - 1] == NL
  }

  /** s starts with a block: its own leading BEGIN line is where the parse succeeds. */
  predicate BlockAtHead(s: Text) {
    HasPrefix(s, BEGIN) && Attempt(s[|BEGIN|..]).Found?
  }

  function KindAtHead(s: Text): Text
    requires BlockAtHead(s)
  {
    Attempt(s[|BEGIN|..]).block.kind
  }

  // ----- Lines -----

  lemma {:induction false} FindAppend(a: Text, b: Text, c: byte)
    ensures Find(a + b, c) == if Find(a, c) < |a| then Find(a, c) else |a| + Find(b, c)
  {
    if a == [] {
      assert a + b == b;
    } else if a[0] != c {
      FindAppend(a[1..], b, c);
      assert (a + b)[1..] == a[1..] + b;
    }
  }

  lemma {:induction false} TrimRightAppend(p: Text, x: Text)
    requires TrimRight(x) != []
    ensures TrimRight(p + x) == p + TrimRight(x)
  {
    if IsBlank(x[|x| - 1]) {
      TrimRightAppend(p, x[..|x| - 1]);
      assert (p + x)[..|p + x| - 1] == p + x[..|x| - 1];
    }
  }

  /** A line that ends inside junk does not depend on what follows junk. */
  lemma GetLineInside(junk: Text, s: Text)
    requires junk != [] && Lines(junk)
    ensures GetLine(junk + s) == (GetLine(junk).0, GetLine(junk).1 + s)
    ensures Lines(GetLine(junk).1) && |GetLine(junk).1| < |junk|
  {
    var i := Find(junk, NL);
    FindAppend(junk, s, NL);
    assert (junk + s)[..i] == junk[..i];
    assert (junk + s)[i + 1..] == junk[i + 1..] + s;
    if i > 0 {
      assert (junk + s)[..i - 1] == junk[..i - 1];
    }
  }

  /** Text put in front of a line that does not trim away becomes part of the line. */
  lemma GetLineAfterPrefix(p: Text, b: Text)
    requires NL !in p && p != [] && p[|p| - 1] != CR
    requires GetLine(b).0 != []
    ensures GetLine(p + b) == (p + GetLine(b).0, GetLine(b).1)
  {
    hide TrimRight, Find;
    var i, n := Find(b, NL), |p|;
    FindAppend(p, b, NL);
    assert Find(p, NL) == n;
    if i == |b| {
      TrimRightAppend(p, b);
    } else {
      assert i > 0;
      assert (p + b)[n + i + 1..] == b[i + 1..];
      assert (p + b)[n + i - 1] == b[i - 1];
      var j := if b[i - 1] == CR then i - 1 else i;
      assert (p + b)[..n + j] == p + b[..j];
      assert GetLine(b).0 == TrimRight(b[..j]);
      TrimRightAppend(p, b[..j]);
    }
  }

  // ----- Completeness -----

  /** Header reading that starts in junk stops at s at the latest. */
  lemma {:induction false} HeadersStopAt(junk: Text, s: Text, headers: map<Text, Text>)
    returns (h: map<Text, Text>, left: Text)
    requires Lines(junk) && s != []
    requires COLON !in GetLine(s).0
    ensures ReadHeaders(junk + s, headers) == Some((h, left + s))
    ensures Lines(left) && |left| <= |junk|
    decreases |junk|
  {
    hide GetLine, TrimSpace;
    if junk == [] {
      assert junk + s == s;
      assert [] + s == s;
      return headers, [];
    }
    GetLineInside(junk, s);
    var (line, next) := GetLine(junk);
    var i := Find(line, COLON);
    if i == |line| {
      return headers, junk;
    }
    h, left := HeadersStopAt(next, s, headers[TrimSpace(line[..i]) := TrimSpace(line[i + 1..])]);
  }

  lemma LineHasNoEnd(data: Text)
    ensures NL !in GetLine(data).0
  {}

  lemma {:induction false} CompactHas(s: Text, c: byte)
    requires c in s && !IsWhite(c)
    ensures c in Compact(s)
  {
    if s[|s| - 1] != c {
      CompactHas(s[..|s| - 1], c);
    }
  }

  const DASH: byte := 45

  lemma NoDashDecodes(s: Text)
    requires Radix64.Decode(s).Some?
    ensures DASH !in s
  {
    Radix64.DecodeRejects(s);
    var pads :| Radix64.WellFormed(s, pads);
    assert forall i | 0 <= i < |s| :: Radix64.IsDigit(s[i]) || s[i] == Radix64.PAD;
  }

  lemma NoDashParses(text: Text)
    requires ParseData(text).Some?
    ensures DASH !in text
  {
    hide Radix64.Decode;
    var body, sum := text[..|text| - 5], text[|text| - 4..];
    NoDashDecodes(sum);
    NoDashDecodes(body);
    forall i | 0 <= i < |text| ensures text[i] != DASH {
      assert text[i] == if i < |body| then body[i] else if i == |body| then Radix64.PAD else sum[i - |body| - 1];
    }
  }

  /** A body that holds a dash is no radix-64 text. */
  lemma NoDashInBody(kind: Text, headers: map<Text, Text>, rest: Text, endIndex: nat, trailer: nat)
    requires endIndex + |END| <= trailer <= |rest| && DASH in rest[..endIndex]
    ensures ParseAt(kind, headers, rest, endIndex, trailer).None?
  {
    hide GetLine, ParseData, Compact;
    var text := Compact(rest[..endIndex]);
    CompactHas(rest[..endIndex], DASH);
    if ParseData(text).Some? {
      NoDashParses(text);
    }
  }

  lemma InFront(data: Text, i: nat, k: nat)
    ensures k < i <= |data| ==> data[k] in data[..i]
  {}

  /** Without a dash before it, an END marker that ends a body in junk + s lies inside junk. */
  lemma EndInside(junk: Text, s: Text, i: nat)
    requires Lines(junk) && HasPrefix(s, BEGIN) && At(junk + s, [NL] + END, i)
    requires DASH !in (junk + s)[..i]
    ensures i + 1 + |END| < |junk|
  {
    var data, pat := junk + s, [NL] + END;
    AtElements(data, pat, i);
    InFront(data, i, |junk|);
    assert data[|junk|] == s[0] == DASH && data[|junk| + 5] == s[5] == BEGIN[5];
    assert data[i] == NL && i < |junk|;
    assert data[i + 6] == END[5];
    assert data[|junk| - 1] == NL;
    assert forall j | 0 < j < |pat| :: pat[j] != NL by {
      assert forall j | 0 < j < |pat| :: pat[j] == END[j - 1];
    }
  }

  lemma PrefixInside(junk: Text, s: Text)
    requires Lines(junk) && HasPrefix(s, BEGIN) && HasPrefix(junk + s, END)
    ensures |END| < |junk|
  {
    var data := junk + s;
    assert data[..|END|] == END && data[5] == END[5];
    assert data[|junk| + 5] == s[5] == BEGIN[5];
    assert forall j | 0 <= j < |END| :: data[j] == END[j] != NL;
    assert junk != [] ==> data[|junk| - 1] == NL;
  }

  /** What follows a body is what follows the line of its END marker. */
  lemma BodyEnd(kind: Text, headers: map<Text, Text>, rest: Text) returns (e: nat)
    requires ParseBody(kind, headers, rest).Some?
    ensures e + |END| <= |rest| && ParseBody(kind, headers, rest).value.1 == GetLine(rest[e + |END|..]).1
    ensures DASH !in rest[..e]
    ensures (e == 0 && HasPrefix(rest, END)) || At(rest, [NL] + END, e)
  {
    hide GetLine, ParseData, Compact;
    var i := Index(rest, [NL] + END);
    if headers == map[] && HasPrefix(rest, END) {
      e := 0;
      assert rest[..0] == [];
    } else {
      e := i.value;
      if DASH in rest[..e] {
        NoDashInBody(kind, headers, rest, e, e + 1 + |END|);
      }
    }
  }

  /** A block that starts in junk ends in junk: its body cannot hold the BEGIN line of s. */
  lemma BodyInside(kind: Text, headers: map<Text, Text>, junk: Text, s: Text) returns (left: Text)
    requires Lines(junk) && HasPrefix(s, BEGIN)
    ensures ParseBody(kind, headers, junk + s).Some? ==> ParseBody(kind, headers, junk + s).value.1 == left + s
    ensures Lines(left) && |left| <= |junk|
  {
    hide GetLine, ParseBody, Index;
    var data := junk + s;
    left := [];
    if ParseBody(kind, headers, data).Some? {
      var e := BodyEnd(kind, headers, data);
      if At(data, [NL] + END, e) {
        EndInside(junk, s, e);
      } else {
        PrefixInside(junk, s);
      }
      var t := junk[e + |END|..];
      assert data[e + |END|..] == t + s;
      GetLineInside(t, s);
      left := GetLine(t).1;
    }
  }

  /** An attempt that starts in junk does not run past s: it ends, with a block or without, in
      front of s. */
  lemma AttemptInside(junk: Text, s: Text) returns (left: Text)
    requires junk != [] && Lines(junk) && HasPrefix(s, BEGIN)
    requires COLON !in GetLine(s).0
    ensures match Attempt(junk + s)
            case Found(_, after) => after == left + s
            case Retry(from) => from == left + s
            case GiveUp => false
    ensures Lines(left) && |left| < |junk|
  {
    hide GetLine, ReadHeaders, ParseBody;
    GetLineInside(junk, s);
    var typeLine := GetLine(junk).0;
    left := GetLine(junk).1;
    if HasSuffix(typeLine, DASHES) {
      var h;
      h, left := HeadersStopAt(left, s, map[]);
      var kind := typeLine[..|typeLine| - |DASHES|];
      if ParseBody(kind, h, left + s).Some? {
        left := BodyInside(kind, h, left, s);
      }
    }
  }

  /** A marker holds no line end, so it cannot reach from junk over the end of junk's last line
      into s. */
  lemma MarkInside(junk: Text, s: Text, p: Text)
    requires junk != [] && Lines(junk) && HasPrefix(s, p) && NL !in p
    ensures HasPrefix(junk + s, p) ==> |p| < |junk|
    ensures var i := Index(junk + s, [NL] + p);
            i.Some? && (i.value == |junk| - 1 || i.value + 1 + |p| < |junk|)
  {
    var data, pat, n := junk + s, [NL] + p, |junk| - 1;
    assert data[n] == NL;
    if HasPrefix(data, p) {
      AtElements(data, p, 0);
    }
    assert data[n..n + |pat|] == pat by {
      assert data[n + 1..] == s;
      assert data[n..] == [NL] + s;
    }
    assert At(data, pat, n);
    var i := Index(data, pat).value;
    AtElements(data, pat, i);
    assert forall j | 0 < j < |pat| :: pat[j] != NL by {
      assert forall j | 0 < j < |pat| :: pat[j] == p[j - 1];
    }
  }

  /** The first marker lies inside junk or is the one that starts s. */
  lemma MarkerInside(junk: Text, s: Text) returns (k: nat)
    requires Lines(junk) && HasPrefix(s, BEGIN)
    ensures FindBegin(junk + s) == Some(k)
    ensures k == |junk| + |BEGIN| || k < |junk|
  {
    hide Index;
    if junk == [] {
      assert junk + s == s;
      return |BEGIN|;
    }
    MarkInside(junk, s, BEGIN);
    return FindBegin(junk + s).value;
  }

  lemma AtElements(s: Text, pat: Text, i: nat)
    requires At(s, pat, i)
    ensures forall j {:trigger s[j]} | i <= j < i + |pat| :: s[j] == pat[j - i]
  {}

  lemma FirstLineOfBlock(s: Text)
    requires BlockAtHead(s)
    ensures GetLine(s) == (BEGIN + KindAtHead(s) + DASHES, GetLine(s[|BEGIN|..]).1)
    ensures COLON in GetLine(s).0 <==> COLON in KindAtHead(s)
  {
    hide GetLine, ReadHeaders, ParseBody;
    var b := s[|BEGIN|..];
    var t := GetLine(b).0;
    assert s == BEGIN + b;
    assert HasSuffix(t, DASHES);
    assert t == KindAtHead(s) + DASHES;
    GetLineAfterPrefix(BEGIN, b);
    assert BEGIN + (KindAtHead(s) + DASHES) == BEGIN + KindAtHead(s) + DASHES;
  }

  /** The block that starts s is what is decoded first. */
  lemma HeadFound(s: Text)
    requires BlockAtHead(s)
    ensures FindBegin(s) == Some(|BEGIN|)
    ensures Blocks(s) != [] && Blocks(s)[0] == Attempt(s[|BEGIN|..]).block
  {
    hide Attempt;
    assert FindBegin(s) == Some(|BEGIN|);
  }

  /** Whatever whole lines precede a block whose type has no colon, failed or whole blocks among
      them, repeated decoding finds that very block, and then what it finds from there on. */
  lemma {:induction false} Completeness(junk: Text, s: Text) returns (pre: seq<Block>)
    requires Lines(junk) && BlockAtHead(s) && COLON !in KindAtHead(s)
    ensures Blocks(junk + s) == pre + Blocks(s)
    ensures Blocks(s) != [] && Blocks(s)[0] == Attempt(s[|BEGIN|..]).block
    decreases |junk|
  {
    hide GetLine, Attempt, FindBegin;
    FirstLineOfBlock(s);
    HeadFound(s);
    var k := MarkerInside(junk, s);
    var data := junk + s;
    if k == |junk| + |BEGIN| {
      assert data[k..] == s[|BEGIN|..];
      SameBlocks(data, s);
      pre := [];
    } else {
      assert data[k..] == junk[k..] + s;
      assert Lines(junk[k..]) && junk[k..] != [];
      var left := AttemptInside(junk[k..], s);
      pre := Completeness(left, s);
      assert Blocks(left + s) != [];
      match Attempt(data[k..])
      case Retry(_) =>
      case Found(block, _) =>
        assert Blocks(data) == [block] + Blocks(left + s);
        pre := [block] + pre;
    }
  }

  /** Two texts whose first markers have the same text behind them. */
  ghost predicate SameMarker(x: Text, y: Text) {
    match (FindBegin(x), FindBegin(y))
    case (None, None) => true
    case (Some(i), Some(j)) => x[i..] == y[j..]
    case _ => false
  }

  lemma SameBlocks(x: Text, y: Text)
    requires SameMarker(x, y)
    ensures Blocks(x) == Blocks(y)
  {
    hide Attempt, FindBegin;
  }

  // ----- A type with a colon -----

  /** text starts a line of s other than the first. */
  ghost predicate LaterLine(s: Text, text: Text) {
    exists m :: 0 < m <= |s| && s[m - 1] == NL && text == s[m..]
  }

  lemma NextIsLaterLine(s: Text)
    requires GetLine(s).1 != []
    ensures LaterLine(s, GetLine(s).1)
  {}

  lemma LaterLineTransitive(s: Text, t: Text, u: Text)
    requires LaterLine(s, t) && LaterLine(t, u)
    ensures LaterLine(s, u)
  {}

  lemma {:induction false} HeadersEndOnLine(s: Text, t: Text, headers: map<Text, Text>)
    requires LaterLine(s, t) && ReadHeaders(t, headers).Some?
    ensures LaterLine(s, ReadHeaders(t, headers).value.1)
    decreases |t|
  {
    hide GetLine, TrimSpace;
    var (line, next) := GetLine(t);
    var i := Find(line, COLON);
    if i != |line| {
      NextIsLaterLine(t);
      LaterLineTransitive(s, t, next);
      HeadersEndOnLine(s, next, headers[TrimSpace(line[..i]) := TrimSpace(line[i + 1..])]);
    }
  }

  /** Which lines are headers does not depend on the headers read before. */
  lemma {:induction false} HeadersIndependent(t: Text, h1: map<Text, Text>, h2: map<Text, Text>)
    ensures ReadHeaders(t, h1).Some? <==> ReadHeaders(t, h2).Some?
    ensures ReadHeaders(t, h1).Some? ==>
              && ReadHeaders(t, h1).value.1 == ReadHeaders(t, h2).value.1
              && (h2 != map[] ==> ReadHeaders(t, h2).value.0 != map[])
    decreases |t|
  {
    hide GetLine, TrimSpace;
    if t != [] {
      var (line, next) := GetLine(t);
      var i := Find(line, COLON);
      if i != |line| {
        var key, val := TrimSpace(line[..i]), TrimSpace(line[i + 1..]);
        assert key in h2[key := val];
        HeadersIndependent(next, h1[key := val], h2[key := val]);
      }
    }
  }

  lemma MarkerBehindLine(text: Text, p: nat, i: nat)
    requires p <= |text|
    ensures At(text, [NL] + BEGIN, i) && p <= i ==>
      Find(text[p..], NL) < |text| - p && p + Find(text[p..], NL) <= i
  {
    if At(text, [NL] + BEGIN, i) && p <= i {
      AtElements(text, [NL] + BEGIN, i);
      assert text[p..][i - p] == NL;
    }
  }

  lemma NextLine(data: Text)
    ensures GetLine(data).1 == if Find(data, NL) < |data| then data[Find(data, NL) + 1..] else []
  {}

  /** Without a marker up to the line that position p lies in, the first one is that of what follows
      this line. */
  lemma MarkerAfterLine(text: Text, p: nat)
    requires p <= |text| && !HasPrefix(text, BEGIN)
    requires forall i: nat | At(text, [NL] + BEGIN, i) :: p <= i
    ensures SameMarker(text, GetLine(text[p..]).1)
  {
    hide Index, Find, At, GetLine, HasPrefix;
    var tail := text[p..];
    var n := Find(tail, NL);
    forall i: nat | At(text, [NL] + BEGIN, i) ensures n < |tail| && p + n <= i {
      MarkerBehindLine(text, p, i);
    }
    NextLine(tail);
    if n < |tail| {
      assert GetLine(tail).1 == text[p + n + 1..];
      MarkerFrom(text, p + n + 1);
    } else {
      NoMarker();
    }
  }

  lemma NoMarker()
    ensures FindBegin([]).None?
  {}

  /** When no marker starts before the line end in front of m, the search may start at m. */
  lemma MarkerFrom(text: Text, m: nat)
    requires 0 < m <= |text| && text[m - 1] == NL && !HasPrefix(text, BEGIN)
    requires forall i: nat | At(text, [NL] + BEGIN, i) :: m <= i + 1
    ensures SameMarker(text, text[m..])
  {
    hide Index;
    var pat, after := [NL] + BEGIN, text[m..];
    MarkersLift(text, m, BEGIN);
    var i, j := Index(text, pat), Index(after, pat);
    assert j.Some? ==> At(text, pat, m + j.value);
    if HasPrefix(after, BEGIN) {
      assert At(text, pat, m - 1);
      assert text[m - 1 + 12..] == after[11..];
    } else if i.Some? {
      assert At(after, pat, i.value - m);
      assert text[i.value + 12..] == after[j.value + 12..];
    }
  }

  lemma MarkersLift(s: Text, m: nat, p: Text)
    requires 0 < m <= |s| && s[m - 1] == NL
    ensures HasPrefix(s[m..], p) <==> At(s, [NL] + p, m - 1)
    ensures forall i: nat | m <= i :: At(s[m..], [NL] + p, i - m) <==> At(s, [NL] + p, i)
    ensures forall i: nat | At(s[m..], [NL] + p, i) :: At(s, [NL] + p, m + i)
  {}

  /** The first marker in the text of a block comes after its END line. */
  lemma NoMarkerInBody(kind: Text, headers: map<Text, Text>, text: Text)
    requires ParseBody(kind, headers, text).Some?
    ensures SameMarker(text, ParseBody(kind, headers, text).value.1)
  {
    hide GetLine, ParseBody, Index;
    var e := BodyEnd(kind, headers, text);
    MarkersBehind(text, e);
    MarkerAfterLine(text, e + |END|);
  }

  lemma EndElements(text: Text, e: nat)
    requires e + |END| <= |text|
    ensures At(text, [NL] + END, e) ==>
      text[e] == NL && (forall j | e < j <= e + |END| :: text[j] == END[j - e - 1]) && text[e + 6] == END[5]
    ensures HasPrefix(text, END) ==> (forall j | 0 <= j < |END| :: text[j] == END[j]) && text[5] == END[5]
  {
    if At(text, [NL] + END, e) {
      AtElements(text, [NL] + END, e);
    }
  }

  lemma BeginElements(text: Text)
    ensures HasPrefix(text, BEGIN) ==> |text| > 5 && text[0] == DASH && text[5] == BEGIN[5]
  {}

  lemma MarkersBehind(text: Text, e: nat)
    requires e + |END| <= |text| && DASH !in text[..e]
    requires (e == 0 && HasPrefix(text, END)) || At(text, [NL] + END, e)
    ensures !HasPrefix(text, BEGIN)
    ensures forall i: nat | At(text, [NL] + BEGIN, i) :: e + |END| <= i
  {
    EndElements(text, e);
    BeginElements(text);
    InFront(text, e, 0);
    forall i: nat | At(text, [NL] + BEGIN, i) ensures e + |END| <= i {
      AtElements(text, [NL] + BEGIN, i);
      InFront(text, e, i + 1);
      assert text[i] == NL && text[i + 1] == DASH && text[i + 6] == BEGIN[5];
    }
  }

  /** An END line for one type does not end a block of a type that is longer by a letter. */
  lemma LongerTypeFails(kind: Text, h1: map<Text, Text>, h2: map<Text, Text>, text: Text)
    requires ParseBody(kind, h1, text).Some? && h2 != map[]
    ensures ParseBody(kind + [65], h2, text).None?
  {
    hide GetLine, ParseData;
    var n := |kind|;
    if h1 == map[] && HasPrefix(text, END) {
      EmptyBodyFails(kind, h1, text);
      assert false;
    }
    var i := Index(text, [NL] + END).value;
    var t := i + 1 + |END|;
    var end := text[t..t + n + 5];
    assert end[n..] == DASHES;
    assert text[t + n] == end[n..][0] == 45;
    if t + n + 6 <= |text| {
      PrefixElement(text[t..t + n + 6], kind + [65], n);
    }
  }

  lemma PrefixElement(s: Text, p: Text, k: nat)
    requires k < |p| <= |s|
    ensures HasPrefix(s, p) ==> s[k] == p[k]
  {}

  /** Without a body there is no checksum, so an END line straight after BEGIN never ends a
      block. */
  lemma EmptyBodyFails(kind: Text, headers: map<Text, Text>, text: Text)
    requires |END| <= |text|
    ensures ParseAt(kind, headers, text, 0, |END|).None?
  {}

  /** A BEGIN line of its own, with a longer type, that hides the block of s from the decoder
      when the type of that block holds a colon. */
  function Decoy(s: Text): Text
    requires BlockAtHead(s)
  {
    BEGIN + (KindAtHead(s) + [65] + DASHES) + [NL]
  }

  lemma WholeLine(line: Text, s: Text)
    requires NL !in line && HasSuffix(line, DASHES)
    ensures GetLine(line + [NL] + s) == (line, s)
  {
    var data, n := line + [NL] + s, |line|;
    FindAppend(line, [NL] + s, NL);
    assert line + ([NL] + s) == data;
    assert Find(line, NL) == n;
    assert data[..n] == line && data[n + 1..] == s;
    assert line[n - 1] == line[n - 5..][4] == 45;
  }

  lemma DecoyLine(s: Text)
    requires BlockAtHead(s)
    ensures var line := KindAtHead(s) + [65] + DASHES;
      && GetLine((Decoy(s) + s)[|BEGIN|..]) == (line, s)
      && HasSuffix(line, DASHES) && line[..|line| - |DASHES|] == KindAtHead(s) + [65]
  {
    hide GetLine, Attempt;
    var kind := KindAtHead(s);
    var line := kind + [65] + DASHES;
    FirstLineOfBlock(s);
    LineHasNoEnd(s);
    assert NL !in line by { assert forall c | c in kind :: c in GetLine(s).0; }
    WholeLine(line, s);
    assert (Decoy(s) + s)[|BEGIN|..] == line + [NL] + s;
  }

  /** When the BEGIN line of s is read as a header, the lines behind it are read as before. */
  lemma OwnHeaders(s: Text) returns (h: map<Text, Text>)
    requires BlockAtHead(s) && COLON in KindAtHead(s)
    ensures ReadHeaders(s, map[]).Some? && ReadHeaders(s, map[]).value.0 != map[]
    ensures var own := Attempt(s[|BEGIN|..]);
      ParseBody(KindAtHead(s), h, ReadHeaders(s, map[]).value.1) == Some((own.block, own.after))
  {
    hide GetLine, ParseBody, TrimSpace;
    FirstLineOfBlock(s);
    var (head, next) := GetLine(s);
    var i := Find(head, COLON);
    var key, val := TrimSpace(head[..i]), TrimSpace(head[i + 1..]);
    var first := map[][key := val];
    assert key in first;
    HeadersIndependent(next, map[], first);
    h := ReadHeaders(next, map[]).value.0;
  }

  /** Behind the decoy the decoder starts over at the body of s. */
  lemma DecoyAttempt(s: Text) returns (h: map<Text, Text>)
    requires BlockAtHead(s) && COLON in KindAtHead(s)
    ensures Attempt((Decoy(s) + s)[|BEGIN|..]).Retry?
    ensures var own := Attempt(s[|BEGIN|..]);
      ParseBody(KindAtHead(s), h, Attempt((Decoy(s) + s)[|BEGIN|..]).from) == Some((own.block, own.after))
  {
    h := OwnHeaders(s);
    DecoyLine(s);
    hide GetLine, ParseBody, ReadHeaders, Decoy, KindAtHead, BlockAtHead;
    var (seen, text) := ReadHeaders(s, map[]).value;
    LongerTypeFails(KindAtHead(s), h, seen, text);
  }

  /** The block of s is lost behind its decoy, and nothing else. */
  lemma DecoyHides(s: Text)
    requires BlockAtHead(s) && COLON in KindAtHead(s)
    ensures Lines(Decoy(s))
    ensures Blocks(s) == [Attempt(s[|BEGIN|..]).block] + Blocks(Decoy(s) + s)
  {
    hide GetLine, Attempt, ParseBody, FindBegin;
    var data := Decoy(s) + s;
    assert data[..|BEGIN|] == BEGIN;
    AtMarker(data);
    AtMarker(s);
    var h := DecoyAttempt(s);
    var from := Attempt(data[|BEGIN|..]).from;
    NoMarkerInBody(KindAtHead(s), h, from);
    SameBlocks(from, Attempt(s[|BEGIN|..]).after);
  }

  /** How repeated decoding goes on at a marker. */
  lemma AtMarker(data: Text)
    requires HasPrefix(data, BEGIN)
    ensures var a := Attempt(data[|BEGIN|..]);
      && (a.Found? ==> Blocks(data) == [a.block] + Blocks(a.after))
      && (a.Retry? ==> Blocks(data) == Blocks(a.from))
  {
    hide Attempt;
    assert FindBegin(data) == Some(|BEGIN|);
  }

  /** Decoding junk + s repeatedly gives some blocks first and then those of s. */
  ghost predicate FoundBehind(junk: Text, s: Text) {
    exists pre :: Blocks(junk + s) == pre + Blocks(s)
  }

  /** A block at the head of s is found behind whatever whole lines precede it, and then what
      follows it, if and only if its type has no colon. */
  lemma CompletenessExact(s: Text)
    requires BlockAtHead(s)
    ensures (forall junk | Lines(junk) :: FoundBehind(junk, s)) <==> COLON !in KindAtHead(s)
  {
    hide Decoded, Attempt, Blocks;
    if COLON in KindAtHead(s) {
      DecoyHides(s);
      assert |Blocks(Decoy(s) + s)| < |Blocks(s)|;
      assert !FoundBehind(Decoy(s), s);
    } else {
      forall junk | Lines(junk) ensures FoundBehind(junk, s) {
        var pre := Completeness(junk, s);
      }
    }
  }

  // ----- Progress and soundness -----

  /** A block starts at position p of data: a marker there, at the start of a line, from which
      the parse succeeds. */
  ghost predicate BlockAt(data: Text, p: nat, block: Block, after: Text) {
    && p <= |data| && (p == 0 || data[p - 1] == NL)
    && HasPrefix(data[p..], BEGIN)
    && Attempt(data[p..][|BEGIN|..]) == Found(block, after)
  }

  ghost predicate Suffix(s: Text, t: Text) {
    exists m :: 0 <= m <= |s| && t == s[m..]
  }

  lemma SuffixTransitive(s: Text, t: Text, u: Text)
    requires Suffix(s, t) && Suffix(t, u)
    ensures Suffix(s, u)
  {}

  lemma LineSuffix(s: Text)
    ensures Suffix(s, GetLine(s).1)
    ensures GetLine(s).1 == [] || LaterLine(s, GetLine(s).1)
  {
    var i := Find(s, NL);
    if i == |s| {
      assert s[|s|..] == [];
    } else {
      assert GetLine(s).1 == s[i + 1..] && s[i + 1 - 1] == NL;
    }
  }

  lemma LaterIsSuffix(s: Text, t: Text)
    requires LaterLine(s, t)
    ensures Suffix(s, t)
  {}

  lemma HeadersSuffix(t: Text, headers: map<Text, Text>)
    requires ReadHeaders(t, headers).Some?
    ensures ReadHeaders(t, headers).value.1 == t || LaterLine(t, ReadHeaders(t, headers).value.1)
  {
    hide GetLine, TrimSpace;
    var (line, next) := GetLine(t);
    var i := Find(line, COLON);
    if i != |line| {
      NextIsLaterLine(t);
      HeadersEndOnLine(t, next, headers[TrimSpace(line[..i]) := TrimSpace(line[i + 1..])]);
    }
  }

  lemma BodySuffix(kind: Text, headers: map<Text, Text>, t: Text)
    requires ParseBody(kind, headers, t).Some?
    ensures Suffix(t, ParseBody(kind, headers, t).value.1)
  {
    hide GetLine, ParseData, Index, Compact;
    var e := if headers == map[] && HasPrefix(t, END) then 0 else Index(t, [NL] + END).value;
    LineSuffix(t[e + |END|..]);
    assert Suffix(t, t[e + |END|..]);
    SuffixTransitive(t, t[e + |END|..], GetLine(t[e + |END|..]).1);
  }

  /** A failed attempt starts over on a later line, a successful one leaves a suffix. */
  lemma AttemptProgress(body: Text)
    ensures Attempt(body).Retry? ==> Attempt(body).from == [] || LaterLine(body, Attempt(body).from)
    ensures Attempt(body).Found? ==> Suffix(body, Attempt(body).after)
  {
    hide GetLine, ParseBody, ReadHeaders;
    var (line, next) := GetLine(body);
    LineSuffix(body);
    if HasSuffix(line, DASHES) && ReadHeaders(next, map[]).Some? {
      var kind := line[..|line| - 5];
      var (headers, text) := ReadHeaders(next, map[]).value;
      HeadersSuffix(next, map[]);
      if text != next { LaterIsSuffix(next, text); }
      if next != [] && text != next { LaterLineTransitive(body, next, text); }
      if ParseBody(kind, headers, text).Some? {
        BodySuffix(kind, headers, text);
        assert Suffix(next, text) by { assert text == next ==> text == next[0..]; }
        SuffixTransitive(body, next, text);
        SuffixTransitive(body, text, ParseBody(kind, headers, text).value.1);
      }
    }
  }

  /** The position of the marker that FindBegin reports. */
  lemma MarkerPosition(data: Text) returns (p: nat)
    requires FindBegin(data).Some?
    ensures p + |BEGIN| == FindBegin(data).value && HasPrefix(data[p..], BEGIN)
    ensures p == 0 || data[p - 1] == NL
  {
    if HasPrefix(data, BEGIN) {
      assert data[0..] == data;
      return 0;
    }
    var i := Index(data, [NL] + BEGIN).value;
    assert data[i..i + 12][0] == NL;
    assert data[i + 1..][..11] == data[i..i + 12][1..];
    return i + 1;
  }

  lemma BlockLifts(data: Text, m: nat, p: nat, block: Block, after: Text)
    requires 0 < m <= |data| && data[m - 1] == NL
    requires BlockAt(data[m..], p, block, after)
    ensures BlockAt(data, m + p, block, after)
  {
    hide Attempt;
    assert data[m + p..] == data[m..][p..];
  }

  /** A returned block parses at a marker that starts a line of data, and what is returned with
      it is a proper suffix of data; when there is none all of data comes back. */
  lemma {:induction false} DecodedSound(data: Text)
    ensures Decoded(data).0.Some? ==>
              && (exists p: nat :: BlockAt(data, p, Decoded(data).0.value, Decoded(data).1))
              && Suffix(data, Decoded(data).1) && |Decoded(data).1| < |data|
    ensures Decoded(data).0.None? ==> Decoded(data).1 == data
    decreases |data|
  {
    hide Attempt, FindBegin;
    if FindBegin(data).Some? {
      var k := FindBegin(data).value;
      var p := MarkerPosition(data);
      assert data[p..][|BEGIN|..] == data[k..];
      AttemptProgress(data[k..]);
      match Attempt(data[k..])
      case GiveUp =>
      case Found(block, after) =>
        assert BlockAt(data, p, block, after);
        assert Suffix(data, data[k..]);
        SuffixTransitive(data, data[k..], after);
      case Retry(from) =>
        DecodedSound(from);
        if Decoded(from).0.Some? {
          LaterLineOfTail(data, k, from);
          RetryLifts(data, from, Decoded(from).0.value, Decoded(from).1);
        }
    }
  }

  lemma LaterLineOfTail(data: Text, k: nat, from: Text)
    requires k <= |data| && LaterLine(data[k..], from)
    ensures LaterLine(data, from)
  {}

  lemma RetryLifts(data: Text, from: Text, block: Block, after: Text)
    requires LaterLine(data, from)
    requires (exists p: nat :: BlockAt(from, p, block, after)) && Suffix(from, after)
    ensures (exists p: nat :: BlockAt(data, p, block, after)) && Suffix(data, after)
  {
    hide Attempt;
    var m :| 0 < m <= |data| && data[m - 1] == NL && from == data[m..];
    var p: nat :| BlockAt(from, p, block, after);
    BlockLifts(data, m, p, block, after);
    SuffixTransitive(data, from, after);
  }

  // ----- What is accepted -----

  predicate AllBlank(s: Text) {
    forall i | 0 <= i < |s| :: s[i] == ' ' as int || s[i] == '\t' as int
  }

  /** The parts of the first line of a text: the line, the blanks behind it, its end, and the rest. */
  predicate LineParts(line: Text, blanks: Text, eol: Text, next: Text) {
    && NL !in line && AllBlank(blanks)
    && (line != [] ==> !IsBlank(line[|line| - 1]))
    && (eol == [NL] || eol == [CR, NL] || (eol == [] && next == []))
    && (eol == [NL] && line + blanks != [] ==> (line + blanks)[|line + blanks| - 1] != CR)
  }

  lemma {:induction false} TrimBlanks(line: Text, blanks: Text)
    requires AllBlank(blanks) && (line != [] ==> !IsBlank(line[|line| - 1]))
    ensures TrimRight(line + blanks) == line
  {
    var s := line + blanks;
    if blanks == [] {
      assert s == line;
    } else {
      var n := |blanks| - 1;
      assert s[..|s| - 1] == line + blanks[..n] && s[|s| - 1] == blanks[n];
      TrimBlanks(line, blanks[..n]);
    }
  }

  /** A text is read by its first line. */
  lemma LineOfParts(line: Text, blanks: Text, eol: Text, next: Text)
    requires LineParts(line, blanks, eol, next)
    ensures GetLine(line + blanks + eol + next) == (line, next)
  {
    hide TrimRight, Find;
    var full := line + blanks;
    var data := full + eol + next;
    TrimBlanks(line, blanks);
    if eol == [] {
      assert data == full;
      assert NL !in full;
    } else {
      var n := |full| + |eol| - 1;
      assert data[n] == NL && forall j | 0 <= j < n :: data[j] != NL;
      assert Find(data, NL) == n;
      assert data[n + 1..] == next && data[..|full|] == full;
    }
  }

  lemma SplitOne<T>(s: seq<T>, i: nat)
    requires i < |s|
    ensures s == s[..i] + [s[i]] + s[i + 1..]
  {}

  lemma SplitTwo<T>(s: seq<T>, i: nat)
    requires 0 < i < |s|
    ensures s == s[..i - 1] + [s[i - 1], s[i]] + s[i + 1..]
  {}

  lemma Trimmed(full: Text) returns (blanks: Text)
    requires NL !in full
    ensures full == TrimRight(full) + blanks && AllBlank(blanks) && NL !in TrimRight(full)
    ensures TrimRight(full) != [] ==> !IsBlank(TrimRight(full)[|TrimRight(full)| - 1])
  {
    blanks := full[|TrimRight(full)|..];
  }

  /** Every text has such parts. */
  lemma PartsOfLine(data: Text) returns (blanks: Text, eol: Text)
    ensures LineParts(GetLine(data).0, blanks, eol, GetLine(data).1)
    ensures data == GetLine(data).0 + blanks + eol + GetLine(data).1
  {
    hide TrimRight, Find, AllBlank;
    var i := Find(data, NL);
    if i == |data| {
      blanks := Trimmed(data);
      eol := [];
    } else if i > 0 && data[i - 1] == CR {
      blanks := Trimmed(data[..i - 1]);
      eol := [CR, NL];
      SplitTwo(data, i);
    } else {
      blanks := Trimmed(data[..i]);
      eol := [NL];
      SplitOne(data, i);
      assert i > 0 ==> data[..i][i - 1] != CR;
    }
  }

  /** A body ends at an END marker exactly if that line names the type of the block, between the
      marker and five dashes, and holds nothing else but blanks, and the text in front of it is an
      encoded body with its checksum. */
  lemma EndLineExactly(kind: Text, headers: map<Text, Text>, rest: Text, e: nat)
    requires NL !in kind && At(rest, [NL] + END, e)
    ensures ParseAt(kind, headers, rest, e, e + 1 + |END|).Some?
            <==> GetLine(rest[e + 1..]).0 == END + kind + DASHES && ParseData(Compact(rest[..e])).Some?
  {
    hide GetLine, ParseData, Compact, Bytes.At;
    AfterMarker(rest, e);
    WholeEndLine(kind, rest[e + 1 + |END|..]);
    TypeAndDashes(kind, rest, e + 1 + |END|);
  }

  lemma AfterMarker(rest: Text, e: nat)
    requires At(rest, [NL] + END, e)
    ensures e + 1 + |END| <= |rest| && rest[e + 1..] == END + rest[e + 1 + |END|..]
  {
    assert rest[e..e + 1 + |END|][1..] == END;
  }

  lemma TypeAndDashes(kind: Text, rest: Text, t: nat)
    requires t <= |rest|
    ensures var n := |kind| + |DASHES|;
      (kind + DASHES <= rest[t..] <==>
         && t + n <= |rest| && HasPrefix(rest[t..t + n], kind) && HasSuffix(rest[t..t + n], DASHES))
      && (t + n <= |rest| ==> rest[t..][n..] == rest[t + n..])
  {
    var n := |kind| + |DASHES|;
    if t + n <= |rest| {
      var s := rest[t..t + n];
      assert rest[t..][..n] == s && s == s[..|kind|] + s[|kind|..];
    }
  }

  /** The END line, read as a line and read as marker, type, dashes and blanks. */
  lemma WholeEndLine(kind: Text, more: Text)
    requires NL !in kind
    ensures GetLine(END + more).0 == END + kind + DASHES
            <==> kind + DASHES <= more && GetLine(more[|kind| + |DASHES|..]).0 == []
  {
    hide GetLine;
    if GetLine(END + more).0 == END + kind + DASHES {
      EndLineRead(kind, more);
    }
    var k := kind + DASHES;
    if k <= more && GetLine(more[|k|..]).0 == [] {
      EndLineWhole(kind, more[|k|..]);
      assert END + (k + more[|k|..]) == END + more;
    }
  }

  lemma EndLineRead(kind: Text, more: Text)
    requires GetLine(END + more).0 == END + kind + DASHES
    ensures kind + DASHES <= more && GetLine(more[|kind| + |DASHES|..]).0 == []
  {
    hide GetLine, LineParts;
    var k := kind + DASHES;
    var blanks, eol := PartsOfLine(END + more);
    var next := GetLine(END + more).1;
    Regroup(END, kind, DASHES, blanks, eol, next);
    Behind(END, more, k + (blanks + eol + next));
    assert more[|k|..] == [] + blanks + eol + next;
    SameParts(END + kind + DASHES, blanks, eol, next);
    LineOfParts([], blanks, eol, next);
  }

  lemma EndLineWhole(kind: Text, tail: Text)
    requires NL !in kind && GetLine(tail).0 == []
    ensures GetLine(END + (kind + DASHES + tail)).0 == END + kind + DASHES
  {
    hide GetLine, LineParts;
    var blanks, eol := PartsOfLine(tail);
    var next := GetLine(tail).1;
    assert [] + blanks + eol + next == blanks + eol + next;
    Regroup(END, kind, DASHES, blanks, eol, next);
    LastDash(kind, blanks, eol, next);
    LineOfParts(END + kind + DASHES, blanks, eol, next);
  }

  lemma Regroup<T>(a: seq<T>, b: seq<T>, c: seq<T>, d: seq<T>, e: seq<T>, f: seq<T>)
    ensures a + b + c + d + e + f == a + (b + c + (d + e + f))
  {}

  lemma Behind<T>(a: seq<T>, b: seq<T>, c: seq<T>)
    requires a + b == a + c
    ensures b == c
  {
    assert b == (a + b)[|a|..] && c == (a + c)[|a|..];
  }

  lemma SameParts(p: Text, blanks: Text, eol: Text, next: Text)
    requires LineParts(p, blanks, eol, next)
    ensures LineParts([], blanks, eol, next)
  {
    assert blanks != [] ==> (p + blanks)[|p + blanks| - 1] == blanks[|blanks| - 1];
    assert [] + blanks == blanks;
  }

  lemma LastDash(kind: Text, blanks: Text, eol: Text, next: Text)
    requires NL !in kind && LineParts([], blanks, eol, next)
    ensures LineParts(END + kind + DASHES, blanks, eol, next)
  {
    var p := END + kind + DASHES;
    assert [] + blanks == blanks && p[|p| - 1] == DASH;
    assert (p + blanks)[|p + blanks| - 1] == if blanks == [] then DASH else blanks[|blanks| - 1];
  }

  /** Body and checksum line are accepted exactly if both are radix-64, and the three bytes of the
      checksum, the highest bit first, are the remainder of the division of section 6.1 of RFC
      4880. */
  lemma ParseDataExactly(text: Text, bytes: Text, crc: nat)
    ensures ParseData(text) == Some((bytes, crc)) <==>
            && |text| >= 5 && text[|text| - 5] == '=' as int
            && Radix64.Decode(text[..|text| - 5]) == Some(bytes)
            && var c := Radix64.Decode(text[|text| - 4..]);
               && c.Some? && |c.value| == 3 && Message(c.value) == PolyOf(crc)
               && Remainder(Message(c.value), Add(Shift(InitTerms(), 8 * |bytes|), Shift(Message(bytes), 24)),
                            Generator(), 24)
  {
    hide Radix64.Decode, Checksum, Remainder, Add, Shift, Message, PolyOf;
    if |text| >= 5 && Radix64.Decode(text[|text| - 4..]).Some? {
      var c := Radix64.Decode(text[|text| - 4..]).value;
      if |c| == 3 {
        FieldIs(c, bytes);
        if Message(c) == PolyOf(crc) {
          PolyInjective(crc, Crc24Field(c));
        }
      }
    }
  }

  lemma FieldIs(c: Text, bytes: Text)
    requires |c| == 3
    ensures PolyOf(Crc24Field(c)) == Message(c)
    ensures Crc24Field(c) == Checksum(bytes)
            <==> Remainder(Message(c), Add(Shift(InitTerms(), 8 * |bytes|), Shift(Message(bytes), 24)), Generator(), 24)
  {
    hide Checksum, Remainder, Add, Shift, Message, PolyOf;
    MessageOfThree(c[0], c[1], c[2]);
    assert c == [c[0], c[1], c[2]];
    ChecksumIsRemainder(bytes, Crc24Field(c));
  }

  /** The checksum of a returned block is right. */
  lemma DecodedChecksum(data: Text)
    requires Decoded(data).0.Some?
    ensures Decoded(data).0.value.crc == Checksum(Decoded(data).0.value.bytes)
  {
    hide Decoded, Attempt, Checksum;
    DecodedSound(data);
    var p: nat :| BlockAt(data, p, Decoded(data).0.value, Decoded(data).1);
    AttemptChecksum(data[p..][|BEGIN|..]);
  }

  lemma AttemptChecksum(body: Text)
    requires Attempt(body).Found?
    ensures Attempt(body).block.crc == Checksum(Attempt(body).block.bytes)
  {
    hide GetLine, ReadHeaders, Checksum;
  }

  /** Under one checksum the decoder accepts at most one of the bodies that agree outside a
      window of three bytes. */
  lemma AtMostOneBody(d1: Text, d2: Text, a: Text, x: Text, y: Text, t: Text)
    requires Decoded(d1).0.Some? && Decoded(d1).0.value.bytes == a + x + t
    requires Decoded(d2).0.Some? && Decoded(d2).0.value.bytes == a + y + t
    requires Decoded(d1).0.value.crc == Decoded(d2).0.value.crc
    requires |x| == |y| <= 3
    ensures x == y
  {
    hide Decoded, Checksum;
    DecodedChecksum(d1);
    DecodedChecksum(d2);
    BurstDetected(a, x, y, t);
  }
}
