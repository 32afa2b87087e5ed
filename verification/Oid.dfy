/** The text forms of object identifiers (xpki/csr/types.go, xpki/oid/oid.go). */
module Oid {
  import opened Wrappers

  type Components = seq<int>

  const MIN_INT: int := -0x8000_0000_0000_0000
  const MAX_INT: int := 0x7fff_ffff_ffff_ffff

  predicate IsInt(n: int) {
    MIN_INT <= n <= MAX_INT
  }

  /** A parser accepts, returns an error, or panics. */
  datatype Parsed = Ok(oid: Components) | Rejected | Crashed

  // ----- Numerals -----

  predicate IsDigit(c: char) {
    '0' <= c <= '9'
  }

  predicate AllDigits(s: string) {
    forall i | 0 <= i < |s| :: IsDigit(s[i])
  }

  function DigitValue(c: char): nat
    requires IsDigit(c)
  {
    c as int - '0' as int
  }

  function Digit(d: nat): (c: char)
    requires d < 10
    ensures IsDigit(c) && DigitValue(c) == d
  {
    ('0' as int + d) as char
  }

  function Digits(n: nat): (s: string)
    ensures s != "" && AllDigits(s)
  {
    if n < 10 then [Digit(n)] else Digits(n / 10) + [Digit(n % 10)]
  }

  function Value(s: string): (v: int)
    requires AllDigits(s)
    ensures v >= 0
  {
    if s == "" then 0
    else
      assert IsDigit(s[|s| - 1]);
      Value(s[..|s| - 1]) * 10 + DigitValue(s[|s| - 1])
  }

  function Itoa(n: int): string {
    if n < 0 then "-" + Digits(-n) else Digits(n)
  }

  /** A sign is optional; at least one digit is not; the value is an int. */
  function Atoi(s: string): Option<int> {
    var signed := s != "" && (s[0] == '-' || s[0] == '+');
    var digits := if signed then s[1..] else s;
    if digits == "" || !AllDigits(digits) then None
    else
      var v: int := if signed && s[0] == '-' then -Value(digits) else Value(digits);
      if IsInt(v) then Some(v) else None
  }

  lemma {:induction false} ValueOfDigits(n: nat)
    ensures Value(Digits(n)) == n
  {
    if n >= 10 {
      ValueOfDigits(n / 10);
      var s := Digits(n);
      assert s[..|s| - 1] == Digits(n / 10);
    }
  }

  lemma AtoiOfItoa(n: int)
    requires IsInt(n)
    ensures Atoi(Itoa(n)) == Some(n)
  {
    var d := Digits(if n < 0 then -n else n);
    ValueOfDigits(if n < 0 then -n else n);
    assert IsDigit(d[0]);
    assert ("-" + d)[1..] == d;
  }

  lemma AtoiSigned(d: string)
    ensures Atoi("+" + d) == if d == "" || !AllDigits(d) then None
                             else if Value(d) <= 0x7fff_ffff_ffff_ffff then Some(Value(d)) else None
    ensures Atoi("-" + d) == if d == "" || !AllDigits(d) then None
                             else if Value(d) <= 0x8000_0000_0000_0000 then Some(-Value(d)) else None
  {
    hide Value, IsDigit;
    assert ("+" + d)[1..] == d && ("-" + d)[1..] == d;
  }

  lemma AtoiUnsigned(d: string)
    requires d != "" ==> d[0] != '+' && d[0] != '-'
    ensures Atoi(d) == if d == "" || !AllDigits(d) then None
                       else if Value(d) <= 0x7fff_ffff_ffff_ffff then Some(Value(d)) else None
  {
    hide Value;
  }

  /** Which texts are numbers: digits behind at most one sign, with a value that an int64 holds. */
  lemma AtoiExactly(d: string)
    requires d != "" ==> d[0] != '+' && d[0] != '-'
    ensures Atoi(d) == Atoi("+" + d) == if d == "" || !AllDigits(d) then None
                                        else if Value(d) <= 0x7fff_ffff_ffff_ffff then Some(Value(d)) else None
    ensures Atoi("-" + d) == if d == "" || !AllDigits(d) then None
                             else if Value(d) <= 0x8000_0000_0000_0000 then Some(-Value(d)) else None
    ensures forall c | c == '+' || c == '-' :: Atoi("+" + ([c] + d)) == Atoi("-" + ([c] + d)) == None
  {
    hide Atoi, Value;
    AtoiSigned(d);
    AtoiUnsigned(d);
    forall c | c == '+' || c == '-' ensures Atoi("+" + ([c] + d)) == Atoi("-" + ([c] + d)) == None {
      NotDigits(c, d);
      AtoiSigned([c] + d);
    }
  }

  lemma NotDigits(c: char, d: string)
    requires !IsDigit(c)
    ensures [c] + d != "" && !AllDigits([c] + d)
  {
    assert ([c] + d)[0] == c;
  }

  // ----- Segments -----

  /** strings.Split at single characters. */
  function Split(s: string, c: char): (parts: seq<string>)
    ensures parts != []
  {
    if s == "" then [""]
    else
      var rest := Split(s[1..], c);
      if s[0] == c then [""] + rest else [[s[0]] + rest[0]] + rest[1..]
  }

  function Join(parts: seq<string>, c: char): string {
    if parts == [] then "" else if |parts| == 1 then parts[0] else parts[0] + [c] + Join(parts[1..], c)
  }

  lemma {:induction false} SplitFirst(a: string, b: string, c: char)
    requires c !in a
    ensures Split(a, c) == [a] && Split(a + [c] + b, c) == [a] + Split(b, c)
  {
    var s := a + [c] + b;
    if a == "" {
      assert s[1..] == b;
    } else {
      SplitFirst(a[1..], b, c);
      assert s[1..] == a[1..] + [c] + b && s[0] == a[0];
      assert [a[0]] + a[1..] == a;
      assert ([a[1..]] + Split(b, c))[1..] == Split(b, c);
    }
  }

  lemma {:induction false} SplitOfJoin(parts: seq<string>, c: char)
    requires parts != [] && forall p | p in parts :: c !in p
    ensures Split(Join(parts, c), c) == parts
  {
    if |parts| == 1 {
      SplitFirst(parts[0], "", c);
    } else {
      SplitOfJoin(parts[1..], c);
      SplitFirst(parts[0], Join(parts[1..], c), c);
      assert parts == [parts[0]] + parts[1..];
    }
  }

  // ----- Dot notation -----

  /** Every segment is a number; the first that is not stops the loop. */
  function Numbers(segments: seq<string>): Parsed {
    if segments == [] then Ok([])
    else
      match Numbers(segments[..|segments| - 1])
      case Ok(oid) =>
        (match Atoi(segments[|segments| - 1])
         case Some(n) => Ok(oid + [n])
         case None => Rejected)
      case _ => Rejected
  }

  predicate HasDigit(s: string) {
    exists i | 0 <= i < |s| :: IsDigit(s[i])
  }

  /** parseObjectIdentifier: its pattern is not anchored, so it asks for one digit anywhere. */
  function Parse(s: string): Parsed {
    if HasDigit(s) then Numbers(Split(s, '.')) else Rejected
  }

  function Texts(oid: Components): seq<string> {
    seq(|oid|, i requires 0 <= i < |oid| => Itoa(oid[i]))
  }

  function Print(oid: Components): string {
    Join(Texts(oid), '.')
  }

  lemma {:induction false} NumbersOfTexts(oid: Components)
    requires forall n | n in oid :: IsInt(n)
    ensures Numbers(Texts(oid)) == Ok(oid)
  {
    hide Atoi, Itoa;
    if oid != [] {
      var n := |oid| - 1;
      NumbersOfTexts(oid[..n]);
      AtoiOfItoa(oid[n]);
      assert Texts(oid)[..n] == Texts(oid[..n]);
      assert oid == oid[..n] + [oid[n]];
    }
  }

  lemma ItoaChars(n: int)
    ensures '.' !in Itoa(n) && ' ' !in Itoa(n) && HasDigit(Itoa(n))
  {
    var s := Itoa(n);
    assert IsDigit(s[|s| - 1]);
    forall i | 0 <= i < |s| ensures s[i] != '.' && s[i] != ' ' {
      assert s[i] == '-' || IsDigit(s[i]);
    }
  }

  lemma DigitInJoin(parts: seq<string>, c: char)
    requires parts != [] && HasDigit(parts[0])
    ensures HasDigit(Join(parts, c))
  {
    var i :| 0 <= i < |parts[0]| && IsDigit(parts[0][i]);
    assert IsDigit(Join(parts, c)[i]);
  }

  /** Parsing undoes printing for every identifier but the empty one, whatever its components. */
  lemma PrintParse(oid: Components)
    requires forall n | n in oid :: IsInt(n)
    ensures Parse(Print(oid)) == Ok(oid) <==> oid != []
  {
    if oid != [] {
      var parts := Texts(oid);
      forall p | p in parts ensures '.' !in p {
        var i :| 0 <= i < |parts| && parts[i] == p;
        ItoaChars(oid[i]);
      }
      SplitOfJoin(parts, '.');
      ItoaChars(oid[0]);
      DigitInJoin(parts, '.');
      NumbersOfTexts(oid);
    }
  }

  /** Numbers are decimal, dots stand between them: ISO's member body for the United States. */
  lemma KnownIdentifier()
    ensures Print([1, 2, 840]) == "1.2.840" && Parse("1.2.840") == Ok([1, 2, 840])
    ensures MarshalJson([1, 2, 840]) == "\"1.2.840\""
  {
    var oid := [1, 2, 840];
    KnownNumbers();
    hide Itoa, Digits, Parse;
    assert Texts(oid) == ["1", "2", "840"];
    ThreeParts("1", "2", "840", '.');
    assert "1" + "." + "2" + "." + "840" == "1.2.840";
    PrintParse(oid);
  }

  lemma ThreeParts(a: string, b: string, d: string, c: char)
    ensures Join([a, b, d], c) == a + [c] + b + [c] + d
  {
    assert [a, b, d][1..] == [b, d] && [b, d][1..] == [d];
    assert Join([d], c) == d && Join([b, d], c) == b + [c] + d;
    Regroup(a, [c], b, [c], d);
  }

  lemma Regroup<T>(a: seq<T>, b: seq<T>, c: seq<T>, d: seq<T>, e: seq<T>)
    ensures a + b + (c + d + e) == a + b + c + d + e
  {}

  // ----- JSON -----

  function MarshalJson(oid: Components): string {
    "\"" + Print(oid) + "\""
  }

  function UnmarshalJson(data: string): Parsed {
    if data == "" then Crashed
    else if data[0] != '"' || data[|data| - 1] != '"' then Rejected
    else if |data| == 1 then Crashed
    else Parse(data[1..|data| - 1])
  }

  /** Unmarshalling undoes marshalling, exactly for the non-empty identifiers. */
  lemma JsonRoundTrip(oid: Components)
    requires forall n | n in oid :: IsInt(n)
    ensures UnmarshalJson(MarshalJson(oid)) == Ok(oid) <==> oid != []
    ensures oid == [] ==> UnmarshalJson(MarshalJson(oid)) == Rejected
  {
    var data := MarshalJson(oid);
    assert data[1..|data| - 1] == Print(oid);
    PrintParse(oid);
  }

  /** Unmarshalling panics on the empty text and on a lone quote, and on nothing else. */
  lemma JsonCrashes(data: string)
    ensures UnmarshalJson(data).Crashed? <==> data == "" || data == "\""
  {
    if |data| > 1 {
      NumbersMeansAtoi(Split(data[1..|data| - 1], '.'));
    }
  }

  // ----- Brace notation -----

  function IndexOf(s: string, c: char): (i: int)
    ensures -1 <= i < |s| && (i >= 0 ==> s[i] == c)
    ensures forall j | 0 <= j < (if i < 0 then |s| else i) :: s[j] != c
  {
    if s == "" then -1
    else if s[0] == c then 0
    else var i := IndexOf(s[1..], c); if i < 0 then -1 else i + 1
  }

  /** The text between the first parenthesis and the last character, whatever that is; without a
      parenthesis the text starts at the front. */
  function Inside(part: string): Option<string> {
    var lo, hi := IndexOf(part, '(') + 1, |part| - 1;
    if lo <= hi then Some(part[lo..hi]) else None
  }

  function BraceNumbers(parts: seq<string>): Parsed {
    if parts == [] then Ok([])
    else
      match BraceNumbers(parts[..|parts| - 1])
      case Ok(oid) =>
        (match Inside(parts[|parts| - 1])
         case None => Crashed
         case Some(text) =>
           (match Atoi(text)
            case Some(n) => Ok(oid + [n])
            case None => Rejected))
      case failure => failure
  }

  /** NewObjectIdentifier. */
  function New(s: string): Parsed {
    if s == "" then Rejected
    else if s[0] == '{' then
      if |s| == 1 then Crashed else BraceNumbers(Split(s[1..|s| - 1], ' '))
    else Numbers(Split(s, '.'))
  }

  /** A part of the brace form: a name with its number, or a bare number. */
  datatype Part = Numbered(name: string, n: int) | Bare(n: int)

  function PartText(p: Part): string {
    match p
    case Numbered(name, n) => name + "(" + Itoa(n) + ")"
    case Bare(n) => Itoa(n)
  }

  function PartTexts(parts: seq<Part>): (r: seq<string>)
    ensures |r| == |parts|
  {
    seq(|parts|, i requires 0 <= i < |parts| => PartText(parts[i]))
  }

  function BraceForm(parts: seq<Part>): string {
    "{" + Join(PartTexts(parts), ' ') + "}"
  }

  function ComponentsOf(parts: seq<Part>): Components {
    seq(|parts|, i requires 0 <= i < |parts| => parts[i].n)
  }

  predicate PlainPart(p: Part) {
    IsInt(p.n) && (p.Numbered? ==> '(' !in p.name && ' ' !in p.name)
  }

  /** What becomes of a part: a bare number loses its last digit; with one digit nothing is left. */
  function ReadPart(p: Part): Option<int> {
    match p
    case Numbered(_, n) => Some(n)
    case Bare(n) => if -10 < n < 10 then None else Some(if n < 0 then -(-n / 10) else n / 10)
  }

  function ReadParts(parts: seq<Part>): Parsed {
    if parts == [] then Ok([])
    else
      match ReadParts(parts[..|parts| - 1])
      case Ok(oid) =>
        (match ReadPart(parts[|parts| - 1])
         case Some(n) => Ok(oid + [n])
         case None => Rejected)
      case failure => failure
  }

  lemma IndexIs(a: string, b: string, c: char)
    requires c !in a
    ensures IndexOf(a + [c] + b, c) == |a|
  {
    var s := a + [c] + b;
    assert s[|a|] == c;
    assert forall j | 0 <= j < |a| :: s[j] == a[j];
  }

  lemma InsideNamed(name: string, n: int)
    requires '(' !in name
    ensures Inside(PartText(Numbered(name, n))) == Some(Itoa(n))
  {
    var part := PartText(Numbered(name, n));
    assert part == name + ['('] + (Itoa(n) + ")");
    IndexIs(name, Itoa(n) + ")", '(');
    assert part[|name| + 1..|part| - 1] == Itoa(n);
  }

  lemma NoParen(n: int)
    ensures Itoa(n) != "" && Inside(Itoa(n)) == Some(Itoa(n)[..|Itoa(n)| - 1])
  {
    var t := Itoa(n);
    assert forall j | 0 <= j < |t| :: t[j] == '-' || IsDigit(t[j]);
  }

  /** A numeral without its last digit. */
  lemma ShortNumeral(n: int)
    requires IsInt(n)
    ensures Atoi(Itoa(n)[..|Itoa(n)| - 1]) == ReadPart(Bare(n))
  {
    var t := Itoa(n);
    var m := if n < 0 then -n else n;
    if m >= 10 {
      var q := if n < 0 then -(m / 10) else m / 10;
      assert Digits(m)[..|Digits(m)| - 1] == Digits(m / 10);
      assert t[..|t| - 1] == Itoa(q);
      AtoiOfItoa(q);
    } else {
      assert Digits(m) == [Digit(m)];
      assert t[..|t| - 1] == if n < 0 then "-" else "";
    }
  }

  lemma PartIs(p: Part)
    requires PlainPart(p)
    ensures var inside := Inside(PartText(p)); inside.Some? && Atoi(inside.value) == ReadPart(p)
    ensures ' ' !in PartText(p)
  {
    ItoaChars(p.n);
    if p.Numbered? {
      InsideNamed(p.name, p.n);
      AtoiOfItoa(p.n);
    } else {
      NoParen(p.n);
      ShortNumeral(p.n);
    }
  }

  lemma {:induction false} PartsRead(parts: seq<Part>)
    requires forall p | p in parts :: PlainPart(p)
    ensures BraceNumbers(PartTexts(parts)) == ReadParts(parts)
  {
    hide Itoa, Atoi, Inside, PartText, ReadPart, PlainPart;
    if parts != [] {
      var n := |parts| - 1;
      PartsRead(parts[..n]);
      PartIs(parts[n]);
      assert PartTexts(parts)[..n] == PartTexts(parts[..n]);
    }
  }

  /** The brace form of every list of parts is read part by part. */
  lemma BraceParts(parts: seq<Part>)
    requires parts != [] && forall p | p in parts :: PlainPart(p)
    ensures New(BraceForm(parts)) == ReadParts(parts)
  {
    hide Itoa, Atoi, Inside, PartText, ReadPart, PlainPart, BraceNumbers;
    var texts := PartTexts(parts);
    forall t | t in texts ensures ' ' !in t {
      var i :| 0 <= i < |texts| && texts[i] == t;
      PartIs(parts[i]);
    }
    SplitOfJoin(texts, ' ');
    var s := BraceForm(parts);
    assert s[1..|s| - 1] == Join(texts, ' ');
    PartsRead(parts);
  }

  lemma {:induction false} ReadExactly(parts: seq<Part>)
    ensures ReadParts(parts) == Ok(ComponentsOf(parts)) <==> forall p | p in parts :: p.Numbered?
    ensures ReadParts(parts).Ok? ==> |ReadParts(parts).oid| == |parts|
  {
    if parts != [] {
      var n := |parts| - 1;
      var front := parts[..n];
      ReadExactly(front);
      assert parts == front + [parts[n]];
      assert ComponentsOf(parts) == ComponentsOf(front) + [parts[n].n];
      LastDiffers(front, parts[n]);
    }
  }

  lemma LastDiffers(front: seq<Part>, last: Part)
    requires ReadParts(front).Ok? ==> |ReadParts(front).oid| == |front|
    ensures ReadParts(front + [last]) == Ok(ComponentsOf(front) + [last.n])
            <==> ReadParts(front) == Ok(ComponentsOf(front)) && last.Numbered?
  {
    var all := front + [last];
    assert all[..|front|] == front;
    if ReadParts(front).Ok? && ReadPart(last).Some? {
      var oid, n := ReadParts(front).oid, ReadPart(last).value;
      assert ReadParts(all) == Ok(oid + [n]);
      assert (oid + [n])[..|front|] == oid && (oid + [n])[|front|] == n;
      assert (ComponentsOf(front) + [last.n])[..|front|] == ComponentsOf(front);
    }
  }

  /** The brace form is parsed to its components exactly when no part is a bare number. */
  lemma BraceExactly(parts: seq<Part>)
    requires parts != [] && forall p | p in parts :: PlainPart(p)
    ensures New(BraceForm(parts)) == Ok(ComponentsOf(parts)) <==> forall p | p in parts :: p.Numbered?
  {
    BraceParts(parts);
    ReadExactly(parts);
  }

  /** The brace form and the dot form of an identifier are parsed to the same components. */
  lemma BraceAndDot(parts: seq<Part>)
    requires parts != [] && forall p | p in parts :: PlainPart(p) && p.Numbered?
    ensures New(BraceForm(parts)) == Ok(ComponentsOf(parts)) == New(Print(ComponentsOf(parts)))
  {
    var oid := ComponentsOf(parts);
    forall n | n in oid ensures IsInt(n) {
      var i :| 0 <= i < |oid| && oid[i] == n;
      assert parts[i] in parts;
    }
    BraceExactly(parts);
    PrintParse(oid);
    PrintStart(oid);
    SameStrings(Print(oid));
  }

  lemma PrintStart(oid: Components)
    requires oid != []
    ensures Print(oid) != "" && Print(oid)[0] != '{'
  {}

  // ----- The two parsers -----

  lemma {:induction false} NumbersMeansAtoi(segments: seq<string>)
    ensures !Numbers(segments).Crashed?
    ensures Numbers(segments).Ok? <==> forall s | s in segments :: Atoi(s).Some?
  {
    if segments != [] {
      var n := |segments| - 1;
      NumbersMeansAtoi(segments[..n]);
      assert segments == segments[..n] + [segments[n]];
    }
  }

  lemma {:induction false} FirstSegment(s: string, c: char)
    ensures Split(s, c)[0] <= s
  {
    if s != "" && s[0] != c {
      FirstSegment(s[1..], c);
    }
  }

  lemma AtoiHasDigit(s: string)
    ensures Atoi(s).Some? ==> HasDigit(s)
  {}

  /** Both parsers accept the same strings, with the same result, but for those that start with a
      brace, which only NewObjectIdentifier may accept. */
  lemma SameStrings(s: string)
    ensures s == "" || s[0] != '{' ==> New(s) == Parse(s)
    ensures s != "" && s[0] == '{' ==> Parse(s) == Rejected
  {
    var segments := Split(s, '.');
    var first := segments[0];
    NumbersMeansAtoi(segments);
    FirstSegment(s, '.');
    AtoiHasDigit(first);
    assert first in segments;
    if Numbers(segments).Ok? {
      var i :| 0 <= i < |first| && IsDigit(first[i]);
      assert IsDigit(s[i]);
    }
    if s != "" && s[0] == '{' {
      assert first == "" || first[0] == '{';
      assert Atoi(first) == None;
    }
  }

  // ----- Panics -----

  /** The slice between the parenthesis and the last character has its bounds crossed. */
  predicate BadPart(part: string) {
    part == "" || (part[|part| - 1] == '(' && '(' !in part[..|part| - 1])
  }

  predicate GoodPart(part: string) {
    !BadPart(part) && Inside(part).Some? && Atoi(Inside(part).value).Some?
  }

  lemma BadIsNone(part: string)
    ensures BadPart(part) <==> Inside(part).None?
  {
    if part != "" && IndexOf(part, '(') == |part| - 1 {
      var front := part[..|part| - 1];
      assert forall i | 0 <= i < |front| :: front[i] != '(';
    }
  }

  predicate AllGood(parts: seq<string>) {
    forall i | 0 <= i < |parts| :: GoodPart(parts[i])
  }

  /** The first part that is not good is bad. */
  predicate StopsAtBad(parts: seq<string>) {
    exists k | 0 <= k < |parts| :: BadPart(parts[k]) && AllGood(parts[..k])
  }

  lemma GoodMeans(part: string)
    ensures GoodPart(part) <==> Inside(part).Some? && Atoi(Inside(part).value).Some?
    ensures BadPart(part) <==> Inside(part).None?
  {
    BadIsNone(part);
  }

  lemma AllGoodBut(parts: seq<string>)
    requires parts != []
    ensures var n := |parts| - 1; AllGood(parts) <==> AllGood(parts[..n]) && GoodPart(parts[n])
  {
    hide GoodPart;
    var n := |parts| - 1;
    assert forall j | 0 <= j < n :: parts[..n][j] == parts[j];
  }

  lemma {:induction false} BraceOk(parts: seq<string>)
    ensures BraceNumbers(parts).Ok? <==> AllGood(parts)
  {
    if parts != [] {
      hide BadPart, GoodPart, Inside, Atoi, AllGood;
      BraceOk(parts[..|parts| - 1]);
      GoodMeans(parts[|parts| - 1]);
      AllGoodBut(parts);
    } else {
      assert AllGood([]);
    }
  }

  lemma StopsLater(parts: seq<string>)
    requires parts != []
    ensures var n := |parts| - 1;
      StopsAtBad(parts) <==> StopsAtBad(parts[..n]) || (BadPart(parts[n]) && AllGood(parts[..n]))
  {
    hide BadPart, AllGood;
    var n := |parts| - 1;
    var front := parts[..n];
    assert forall k | 0 <= k < n :: front[k] == parts[k] && front[..k] == parts[..k];
    if k :| 0 <= k < n && BadPart(front[k]) && AllGood(front[..k]) {
      assert BadPart(parts[k]) && AllGood(parts[..k]);
    }
    if k :| 0 <= k < |parts| && BadPart(parts[k]) && AllGood(parts[..k]) {
      assert k < n ==> BadPart(front[k]) && AllGood(front[..k]);
    }
  }

  lemma {:induction false} BraceCrashes(parts: seq<string>)
    ensures BraceNumbers(parts).Crashed? <==> StopsAtBad(parts)
  {
    if parts != [] {
      hide BadPart, GoodPart, Inside, Atoi, AllGood, StopsAtBad;
      var n := |parts| - 1;
      BraceCrashes(parts[..n]);
      BraceOk(parts[..n]);
      GoodMeans(parts[n]);
      StopsLater(parts);
    }
  }

  /** The form with braces, names and parentheses. */
  lemma KnownBraceForm()
    ensures New("{iso(1) member-body(2) us(840)}") == Ok([1, 2, 840])
  {
    KnownNumbers();
    var parts := [Numbered("iso", 1), Numbered("member-body", 2), Numbered("us", 840)];
    KnownParts();
    hide Itoa, BraceForm, New;
    BraceExactly(parts);
    assert ComponentsOf(parts) == [1, 2, 840];
  }

  lemma KnownNumbers()
    ensures Itoa(1) == "1" && Itoa(2) == "2" && Itoa(840) == "840"
  {
    assert Digits(8) == "8" && Digits(84) == Digits(8) + "4" && Digits(840) == Digits(84) + "0";
  }

  lemma KnownPart(p: Part, number: string, text: string)
    requires p.Numbered? && Itoa(p.n) == number && p.name + "(" + number + ")" == text
    ensures PartText(p) == text
  {}

  lemma KnownParts()
    ensures var parts := [Numbered("iso", 1), Numbered("member-body", 2), Numbered("us", 840)];
      && BraceForm(parts) == "{iso(1) member-body(2) us(840)}" && forall p | p in parts :: PlainPart(p)
  {
    KnownNumbers();
    var iso, body, us := Numbered("iso", 1), Numbered("member-body", 2), Numbered("us", 840);
    KnownPart(iso, "1", "iso(1)");
    KnownPart(body, "2", "member-body(2)");
    KnownPart(us, "840", "us(840)");
    assert PlainPart(iso) && PlainPart(body) && PlainPart(us);
    hide Itoa, PartText, PlainPart, Join;
    assert PartTexts([iso, body, us]) == [PartText(iso), PartText(body), PartText(us)];
    ThreeParts("iso(1)", "member-body(2)", "us(840)", ' ');
    KnownText();
  }

  lemma KnownText()
    ensures "{" + ("iso(1)" + [' '] + "member-body(2)" + [' '] + "us(840)") + "}" == "{iso(1) member-body(2) us(840)}"
  {}

  /** Exactly which texts make NewObjectIdentifier panic: a lone brace, and those in braces with an
      empty part, or one whose first parenthesis is its last character, after good parts only. */
  lemma CrashesExactly(s: string)
    ensures New(s).Crashed? <==>
            s == "{" || (|s| > 1 && s[0] == '{' && StopsAtBad(Split(s[1..|s| - 1], ' ')))
  {
    hide StopsAtBad, BraceNumbers, Numbers, Split;
    if s != "" && s[0] != '{' {
      NumbersMeansAtoi(Split(s, '.'));
    } else if |s| > 1 {
      BraceCrashes(Split(s[1..|s| - 1], ' '));
    } else if s != "" {
      assert s == "{";
    }
  }

  // ----- The loops -----

  /** The loop over the segments of a dotted form. */
  method Fill(segments: seq<string>) returns (r: Parsed)
    ensures r == Numbers(segments)
  {
    var oid := new int[|segments|];
    for i := 0 to |segments|
      invariant Numbers(segments[..i]) == Ok(oid[..i])
    {
      assert segments[..i + 1][..i] == segments[..i];
      var n := Atoi(segments[i]);
      if n.None? {
        Stops(segments, i + 1);
        return Rejected;
      }
      oid[i] := n.value;
      assert oid[..i + 1] == oid[..i] + [n.value];
    }
    assert segments[..|segments|] == segments && oid[..] == oid[..|segments|];
    r := Ok(oid[..]);
  }

  method ParseObjectIdentifier(s: string) returns (r: Parsed)
    ensures r == Parse(s)
  {
    if !HasDigit(s) {
      return Rejected;
    }
    r := Fill(Split(s, '.'));
  }

  lemma Stops(segments: seq<string>, k: nat)
    requires k <= |segments| && Numbers(segments[..k]) == Rejected
    ensures Numbers(segments) == Rejected
  {
    NumbersMeansAtoi(segments[..k]);
    NumbersMeansAtoi(segments);
    assert forall s | s in segments[..k] :: s in segments;
  }

  /** The loop over the parts of a brace form. */
  method FillBrace(parts: seq<string>) returns (r: Parsed)
    ensures r == BraceNumbers(parts)
  {
    hide Inside, Atoi, BraceNumbers;
    var oid := new int[|parts|];
    NoParts();
    for i := 0 to |parts|
      invariant BraceNumbers(parts[..i]) == Ok(oid[..i])
    {
      BraceNext(parts, i, oid[..i]);
      var text := Inside(parts[i]);
      var n := if text.Some? then Atoi(text.value) else None;
      if n.None? {
        BraceStops(parts, i + 1);
        return if text.None? then Crashed else Rejected;
      }
      oid[i] := n.value;
      assert oid[..i + 1] == oid[..i] + [n.value];
    }
    assert parts[..|parts|] == parts && oid[..] == oid[..|parts|];
    r := Ok(oid[..]);
  }

  lemma NoParts()
    ensures BraceNumbers([]) == Ok([])
  {}

  lemma BraceNext(parts: seq<string>, i: nat, oid: Components)
    requires i < |parts| && BraceNumbers(parts[..i]) == Ok(oid)
    ensures BraceNumbers(parts[..i + 1]) == match Inside(parts[i])
      case None => Crashed
      case Some(text) => if Atoi(text).Some? then Ok(oid + [Atoi(text).value]) else Rejected
  {
    assert parts[..i + 1][..i] == parts[..i];
  }

  method NewObjectIdentifier(s: string) returns (r: Parsed)
    ensures r == New(s)
  {
    hide BraceNumbers, Numbers, Split;
    if s == "" {
      return Rejected;
    }
    if s[0] != '{' {
      r := Fill(Split(s, '.'));
      return;
    }
    if |s| == 1 {
      return Crashed;
    }
    r := FillBrace(Split(s[1..|s| - 1], ' '));
  }

  lemma {:induction false} BraceStops(parts: seq<string>, k: nat)
    requires k <= |parts| && !BraceNumbers(parts[..k]).Ok?
    ensures BraceNumbers(parts) == BraceNumbers(parts[..k])
  {
    if k < |parts| {
      assert parts[..|parts| - 1][..k] == parts[..k];
      BraceStops(parts[..|parts| - 1], k);
    } else {
      assert parts[..k] == parts;
    }
  }
}
