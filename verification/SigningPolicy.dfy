/** What a certificate template must look like for a profile and a request
    (xpki/authority/issuer.go, config.go, xpki/csr/csr.go). */
module SigningPolicy {
  import opened Wrappers

  type Bytes = seq<nat>
  type Oid = seq<int>
  type Policy = nat
  type Key = nat
  type Pattern = string -> bool

  const MINUTE: int := 60_000_000_000

  datatype Name = Name(commonName: string, serialNumber: string, country: seq<string>, province: seq<string>,
                       locality: seq<string>, organization: seq<string>, unit: seq<string>)
  const NO_NAME := Name("", "", [], [], [], [], [])

  datatype X509Name = X509Name(c: string, st: string, l: string, o: string, ou: string)
  datatype Subject = Subject(commonName: string, names: seq<X509Name>, serialNumber: string)

  datatype Extension = Extension(id: Oid, critical: bool, value: Bytes)
  datatype ExtensionRequest = ExtensionRequest(id: Oid, critical: bool, hex: string)

  /** A parsed URI, or the nil pointer that a failed parse leaves. */
  type Uri = Option<string>

  /** A certificate request whose signature holds. Its URIs are all parsed. */
  datatype Csr = Csr(subject: Name, dns: seq<string>, ips: seq<string>, emails: seq<string>, uris: seq<string>,
                     key: Key, isCa: bool, maxPathLen: int, maxPathLenZero: bool)

  datatype AllowedFields = AllowedFields(subject: bool, dns: bool, ips: bool, emails: bool, uris: bool)

  datatype Profile = Profile(
    allowedFields: Option<AllowedFields>,
    names: Option<Pattern>, dns: Option<Pattern>, emails: Option<Pattern>, uris: Option<Pattern>,
    extensions: seq<Oid>, usage: seq<string>, expiry: int, backdate: int,
    isCa: bool, maxPathLen: int, policies: seq<Policy>, ocspNoCheck: bool)

  /** san is nil or a list; csr is None when the PEM text is not a request that can be used. */
  datatype Request = Request(
    profile: string, csr: Option<Csr>, san: Option<seq<string>>, subject: Option<Subject>,
    extensions: seq<ExtensionRequest>, notBefore: Option<int>, notAfter: Option<int>)

  datatype Cert = Cert(
    subject: Name, dns: seq<string>, ips: seq<string>, emails: seq<string>, uris: seq<Uri>,
    key: Option<Key>, serial: nat, extra: seq<Extension>, keyUsage: set<nat>, extKeyUsage: seq<nat>,
    basicConstraints: bool, isCa: bool, maxPathLen: int, maxPathLenZero: bool,
    notBefore: Option<int>, notAfter: Option<int>, subjectKeyId: Bytes,
    ocsp: seq<string>, crl: seq<string>, issuing: seq<string>)

  const EMPTY := Cert(NO_NAME, [], [], [], [], None, 0, [], {}, [], false, false, 0, false, None, None, [], [], [], [])

  /** The library calls and tables that are not modelled further. */
  datatype Library = Library(
    parseUrl: string -> Uri, parseIp: string -> Option<string>, parseEmail: string -> Option<string>,
    decodeHex: string -> Option<Bytes>, marshalPolicies: seq<Policy> -> Option<Bytes>,
    keyId: Key -> Option<Bytes>, keyUsage: map<string, nat>, extKeyUsage: map<string, nat>)

  // ----- Subject alternative names -----

  datatype Kind = UriName | IpName | EmailName | DnsName

  predicate HasScheme(s: string) {
    |s| >= 3 && (s[..3] == "://" || HasScheme(s[1..]))
  }

  function KindOf(lib: Library, s: string): Kind {
    if HasScheme(s) then UriName
    else if lib.parseIp(s).Some? then IpName
    else if lib.parseEmail(s).Some? then EmailName
    else DnsName
  }

  function Select<T>(s: seq<T>, kind: T -> Kind, k: Kind): (r: seq<T>)
    ensures forall x | x in r :: x in s && kind(x) == k
  {
    if s == [] then []
    else
      var n := |s| - 1;
      Select(s[..n], kind, k) + (if kind(s[n]) == k then [s[n]] else [])
  }

  function OfKind(lib: Library, san: seq<string>, kind: Kind): seq<string> {
    Select(san, s => KindOf(lib, s), kind)
  }

  lemma {:induction false} SelectCount<T>(s: seq<T>, kind: T -> Kind, k: Kind, x: T)
    ensures multiset(Select(s, kind, k))[x] == if kind(x) == k then multiset(s)[x] else 0
  {
    if s != [] {
      var n := |s| - 1;
      SelectCount(s[..n], kind, k, x);
      assert s == s[..n] + [s[n]];
    }
  }

  lemma SelectAll<T(!new)>(s: seq<T>, kind: T -> Kind)
    ensures multiset(Select(s, kind, UriName)) + multiset(Select(s, kind, IpName))
            + multiset(Select(s, kind, EmailName)) + multiset(Select(s, kind, DnsName)) == multiset(s)
  {
    hide Select;
    var all := multiset(Select(s, kind, UriName)) + multiset(Select(s, kind, IpName))
               + multiset(Select(s, kind, EmailName)) + multiset(Select(s, kind, DnsName));
    forall x ensures all[x] == multiset(s)[x] {
      SelectCount(s, kind, UriName, x);
      SelectCount(s, kind, IpName, x);
      SelectCount(s, kind, EmailName, x);
      SelectCount(s, kind, DnsName, x);
    }
  }

  /** Every name is in exactly one of the four lists, in its order. */
  lemma Partition(lib: Library, san: seq<string>)
    ensures multiset(OfKind(lib, san, UriName)) + multiset(OfKind(lib, san, IpName))
            + multiset(OfKind(lib, san, EmailName)) + multiset(OfKind(lib, san, DnsName)) == multiset(san)
    ensures forall kind, s | s in OfKind(lib, san, kind) :: KindOf(lib, s) == kind
  {
    SelectAll(san, s => KindOf(lib, s));
  }

  function Map<A, B>(f: A -> B, s: seq<A>): (r: seq<B>)
    ensures |r| == |s| && forall i | 0 <= i < |s| :: r[i] == f(s[i])
  {
    seq(|s|, i requires 0 <= i < |s| => f(s[i]))
  }

  function Force(f: string -> Option<string>): string -> string {
    s => match f(s) case Some(t) => t case None => ""
  }

  // ----- Names from the request and the CSR -----

  function Fields(p: Profile): AllowedFields {
    p.allowedFields.GetOr(AllowedFields(true, true, true, true, true))
  }

  function WantedDns(lib: Library, p: Profile, r: Request, csr: Csr): seq<string> {
    if r.san.Some? then OfKind(lib, r.san.value, DnsName) else if Fields(p).dns then csr.dns else []
  }

  function WantedIps(lib: Library, p: Profile, r: Request, csr: Csr): seq<string> {
    if r.san.Some? then Map(Force(lib.parseIp), OfKind(lib, r.san.value, IpName))
    else if Fields(p).ips then csr.ips else []
  }

  function WantedEmails(lib: Library, p: Profile, r: Request, csr: Csr): seq<string> {
    if r.san.Some? then Map(Force(lib.parseEmail), OfKind(lib, r.san.value, EmailName))
    else if Fields(p).emails then csr.emails else []
  }

  function WantedUris(lib: Library, p: Profile, r: Request, csr: Csr): seq<Uri> {
    if r.san.Some? then Map(lib.parseUrl, OfKind(lib, r.san.value, UriName))
    else if Fields(p).uris then Map(u => Some(u), csr.uris) else []
  }

  /** The values of one attribute, without empty ones. */
  function Values(names: seq<X509Name>, get: X509Name -> string): seq<string> {
    if names == [] then []
    else
      var s := get(names[|names| - 1]);
      Values(names[..|names| - 1], get) + (if s != "" then [s] else [])
  }

  function NameOf(s: Subject): Name {
    Name(s.commonName, s.serialNumber, Values(s.names, (n: X509Name) => n.c), Values(s.names, (n: X509Name) => n.st),
         Values(s.names, (n: X509Name) => n.l), Values(s.names, (n: X509Name) => n.o),
         Values(s.names, (n: X509Name) => n.ou))
  }

  function Or<T(==)>(a: seq<T>, b: seq<T>): seq<T> {
    if a == [] then b else a
  }

  /** The request's subject, with what it leaves empty filled in from base. */
  function Populated(subject: Option<Subject>, base: Name): Name {
    match subject
    case None => base
    case Some(s) =>
      var n := NameOf(s);
      Name(Or(n.commonName, base.commonName), Or(n.serialNumber, base.serialNumber), Or(n.country, base.country),
           Or(n.province, base.province), Or(n.locality, base.locality), Or(n.organization, base.organization),
           Or(n.unit, base.unit))
  }

  function WantedSubject(p: Profile, r: Request, csr: Csr): Name {
    Populated(r.subject, if Fields(p).subject then csr.subject else NO_NAME)
  }

  // ----- Acceptance -----

  predicate Matches(pattern: Option<Pattern>, s: string) {
    pattern.Some? ==> pattern.value(s)
  }

  predicate AllMatch(pattern: Option<Pattern>, names: seq<string>) {
    forall s | s in names :: Matches(pattern, s)
  }

  predicate UriMatches(pattern: Option<Pattern>, u: Uri) {
    pattern.Some? ==> u.Some? && pattern.value(u.value)
  }

  predicate UrisMatch(pattern: Option<Pattern>, uris: seq<Uri>) {
    forall u | u in uris :: UriMatches(pattern, u)
  }

  predicate TextMatches(lib: Library, p: Profile, r: Request, csr: Csr) {
    && (WantedSubject(p, r, csr).commonName != "" ==> Matches(p.names, WantedSubject(p, r, csr).commonName))
    && AllMatch(p.dns, WantedDns(lib, p, r, csr))
    && AllMatch(p.emails, WantedEmails(lib, p, r, csr))
  }

  predicate ExtensionsAllowed(lib: Library, p: Profile, exts: seq<ExtensionRequest>) {
    forall e | e in exts :: e.id in p.extensions && lib.decodeHex(e.hex).Some?
  }

  /** The bits and the list of usages that the profile names. */
  function KeyUses(lib: Library, usage: seq<string>): set<nat> {
    set u | u in usage && u in lib.keyUsage :: lib.keyUsage[u]
  }

  function ExtKeyUses(lib: Library, usage: seq<string>): seq<nat> {
    if usage == [] then []
    else
      var n := |usage| - 1;
      ExtKeyUses(lib, usage[..n])
      + (if usage[n] !in lib.keyUsage && usage[n] in lib.extKeyUsage then [lib.extKeyUsage[usage[n]]] else [])
  }

  predicate Fillable(lib: Library, p: Profile, r: Request, key: Key) {
    && lib.keyId(key).Some?
    && (p.expiry != 0 || r.notAfter.Some?)
    && (KeyUses(lib, p.usage) != {} || ExtKeyUses(lib, p.usage) != [])
    && (p.policies != [] ==> lib.marshalPolicies(p.policies).Some?)
  }

  /** Everything Sign asks for before it hands the template to certificate creation. */
  predicate Accepted(lib: Library, p: Profile, r: Request, csr: Csr, selfSigned: bool) {
    && TextMatches(lib, p, r, csr) && UrisMatch(p.uris, WantedUris(lib, p, r, csr))
    && ExtensionsAllowed(lib, p, r.extensions)
    && Fillable(lib, p, r, csr.key)
    && (selfSigned ==> p.isCa)
  }

  /** The first URI that is not accepted is one that could not be parsed. */
  predicate FirstBadUriIsNil(pattern: Option<Pattern>, uris: seq<Uri>) {
    exists k | 0 <= k < |uris| ::
      uris[k] == None && pattern.Some? && forall j | 0 <= j < k :: UriMatches(pattern, uris[j])
  }

  // ----- The template -----

  function Granted(lib: Library, exts: seq<ExtensionRequest>): seq<Extension> {
    Map((e: ExtensionRequest) => Extension(e.id, e.critical, lib.decodeHex(e.hex).GetOr([])), exts)
  }

  predicate Requested(lib: Library, e: ExtensionRequest, x: Extension) {
    x.id == e.id && x.critical == e.critical && Some(x.value) == lib.decodeHex(e.hex)
  }

  const POLICIES_ID: Oid := [2, 5, 29, 32]
  const OCSP_NO_CHECK := Extension([1, 3, 6, 1, 5, 5, 7, 48, 1, 5], false, [5, 0])

  function FromProfile(lib: Library, p: Profile): seq<Extension> {
    (if p.policies != [] then [Extension(POLICIES_ID, false, lib.marshalPolicies(p.policies).GetOr([]))] else [])
    + (if p.ocspNoCheck then [OCSP_NO_CHECK] else [])
  }

  /** Time.Round to a minute. */
  function RoundMinute(t: int): int {
    var r := t % MINUTE;
    if r + r < MINUTE then t - r else t + (MINUTE - r)
  }

  function Start(p: Profile, r: Request, now: int): int {
    match r.notBefore
    case Some(t) => t
    case None => RoundMinute(now) - (if p.backdate == 0 then 5 * MINUTE else p.backdate)
  }

  function End(p: Profile, r: Request, now: int): int {
    match r.notAfter case Some(t) => t case None => Start(p, r, now) + p.expiry
  }

  datatype Urls = Urls(ocsp: string, crl: string, issuing: string)

  function Listed(url: string): seq<string> {
    if url == "" then [] else [url]
  }

  /** The template for an accepted request. */
  ghost predicate Conforms(lib: Library, p: Profile, r: Request, csr: Csr, urls: Urls, now: int, serial: nat, c: Cert) {
    && c.subject == WantedSubject(p, r, csr)
    && c.dns == (if p.isCa then [] else WantedDns(lib, p, r, csr))
    && c.ips == (if p.isCa then [] else WantedIps(lib, p, r, csr))
    && c.emails == (if p.isCa then [] else WantedEmails(lib, p, r, csr))
    && c.uris == (if p.isCa then [] else WantedUris(lib, p, r, csr))
    && c.key == Some(csr.key) && Some(c.subjectKeyId) == lib.keyId(csr.key)
    && c.serial == serial
    && c.extra == Granted(lib, r.extensions) + FromProfile(lib, p)
    && c.keyUsage == KeyUses(lib, p.usage) && c.extKeyUsage == ExtKeyUses(lib, p.usage)
    && c.basicConstraints && c.isCa == p.isCa
    && c.maxPathLen == (if p.isCa then p.maxPathLen else if p.allowedFields.None? then csr.maxPathLen else 0)
    && c.maxPathLenZero == (if p.isCa then p.maxPathLen == 0 else p.allowedFields.None? && csr.maxPathLenZero)
    && c.notBefore == Some(Start(p, r, now)) && c.notAfter == Some(End(p, r, now))
    && c.ocsp == Listed(urls.ocsp) && c.crl == Listed(urls.crl) && c.issuing == Listed(urls.issuing)
  }

  // ----- What the policy means -----

  /** The extension is allowed to requests, or comes from the profile itself. */
  predicate MayAppear(p: Profile, e: Extension) {
    e.id in p.extensions || (e.id == POLICIES_ID && p.policies != []) || (e == OCSP_NO_CHECK && p.ocspNoCheck)
  }

  /** A conforming template for an accepted request keeps to the profile. */
  lemma PolicyHolds(lib: Library, p: Profile, r: Request, csr: Csr, urls: Urls, now: int, serial: nat, c: Cert, self: bool)
    requires Accepted(lib, p, r, csr, self) && Conforms(lib, p, r, csr, urls, now, serial, c)
    ensures c.subject.commonName != "" ==> Matches(p.names, c.subject.commonName)
    ensures AllMatch(p.dns, c.dns) && AllMatch(p.emails, c.emails) && UrisMatch(p.uris, c.uris)
    ensures forall e | e in c.extra :: MayAppear(p, e)
    ensures |c.extra| == |r.extensions| + (if p.policies != [] then 1 else 0) + (if p.ocspNoCheck then 1 else 0)
    ensures forall i | 0 <= i < |r.extensions| ::
      c.extra[i].id == r.extensions[i].id && c.extra[i].critical == r.extensions[i].critical
      && Some(c.extra[i].value) == lib.decodeHex(r.extensions[i].hex)
    ensures c.isCa == p.isCa && (c.isCa ==> c.dns == [] && c.ips == [] && c.emails == [] && c.uris == [])
  {
    hide WantedDns, WantedEmails, WantedUris, WantedIps, WantedSubject;
    var granted := Granted(lib, r.extensions);
    forall e | e in c.extra ensures MayAppear(p, e) {
      if e in granted {
        var i :| 0 <= i < |granted| && granted[i] == e;
        assert r.extensions[i] in r.extensions;
      }
    }
    forall i | 0 <= i < |r.extensions|
      ensures Requested(lib, r.extensions[i], c.extra[i])
    {
      assert c.extra[i] == granted[i] && r.extensions[i] in r.extensions;
    }
  }

  /** Key, usages, fixed extensions and URLs of a conforming template. */
  lemma ProfileIsKept(lib: Library, p: Profile, r: Request, csr: Csr, urls: Urls, now: int, serial: nat, c: Cert, self: bool)
    requires Accepted(lib, p, r, csr, self) && Conforms(lib, p, r, csr, urls, now, serial, c)
    ensures c.key == Some(csr.key) && lib.keyId(csr.key) == Some(c.subjectKeyId) && c.serial == serial
    ensures c.basicConstraints && (c.isCa <==> p.isCa)
    ensures p.isCa ==> c.maxPathLen == p.maxPathLen && (c.maxPathLenZero <==> p.maxPathLen == 0)
    ensures forall u | u in p.usage && u in lib.keyUsage :: lib.keyUsage[u] in c.keyUsage
    ensures forall b | b in c.keyUsage :: exists u | u in p.usage && u in lib.keyUsage :: lib.keyUsage[u] == b
    ensures forall u | u in p.usage && u !in lib.keyUsage && u in lib.extKeyUsage :: lib.extKeyUsage[u] in c.extKeyUsage
    ensures forall b | b in c.extKeyUsage ::
      exists u | u in p.usage && u !in lib.keyUsage && u in lib.extKeyUsage :: lib.extKeyUsage[u] == b
    ensures c.keyUsage != {} || c.extKeyUsage != []
    ensures p.policies != [] ==>
      exists e | e in c.extra :: e.id == [2, 5, 29, 32] && !e.critical && Some(e.value) == lib.marshalPolicies(p.policies)
    ensures p.ocspNoCheck ==> Extension([1, 3, 6, 1, 5, 5, 7, 48, 1, 5], false, [5, 0]) in c.extra
    ensures forall u | u != "" ::
      (u in c.ocsp <==> u == urls.ocsp) && (u in c.crl <==> u == urls.crl) && (u in c.issuing <==> u == urls.issuing)
  {
    hide WantedDns, WantedEmails, WantedUris, WantedIps, WantedSubject;
    ExtUsesAre(lib, p.usage);
    if p.policies != [] {
      var e := Extension([2, 5, 29, 32], false, lib.marshalPolicies(p.policies).value);
      assert FromProfile(lib, p)[0] == e;
      assert e in c.extra;
    }
    if p.ocspNoCheck {
      assert OCSP_NO_CHECK in FromProfile(lib, p);
    }
  }

  lemma {:induction false} ExtUsesAre(lib: Library, usage: seq<string>)
    ensures forall u | u in usage && u !in lib.keyUsage && u in lib.extKeyUsage :: lib.extKeyUsage[u] in ExtKeyUses(lib, usage)
    ensures forall b | b in ExtKeyUses(lib, usage) ::
      exists u | u in usage && u !in lib.keyUsage && u in lib.extKeyUsage :: lib.extKeyUsage[u] == b
  {
    if usage != [] {
      var n := |usage| - 1;
      ExtUsesAre(lib, usage[..n]);
      assert usage == usage[..n] + [usage[n]];
      var last := usage[n];
      forall b | b in ExtKeyUses(lib, usage)
        ensures exists u | u in usage && u !in lib.keyUsage && u in lib.extKeyUsage :: lib.extKeyUsage[u] == b
      {
        if b in ExtKeyUses(lib, usage[..n]) {
          var u :| u in usage[..n] && u !in lib.keyUsage && u in lib.extKeyUsage && lib.extKeyUsage[u] == b;
          assert u in usage;
        } else {
          assert last in usage;
        }
      }
    }
  }

  /** The validity: what the request says, or from the current minute, rounded to the nearest and
      put back by five minutes if the profile does not say how far, for as long as the profile says. */
  lemma ValidityIs(lib: Library, p: Profile, r: Request, csr: Csr, urls: Urls, now: int, serial: nat, c: Cert)
    requires Conforms(lib, p, r, csr, urls, now, serial, c)
    ensures c.notBefore.Some? && c.notAfter.Some?
    ensures r.notBefore.Some? ==> c.notBefore == r.notBefore
    ensures r.notAfter.Some? ==> c.notAfter == r.notAfter
    ensures r.notAfter.None? ==> c.notAfter.value == c.notBefore.value + p.expiry
    ensures r.notBefore.None? ==>
      var minute := c.notBefore.value + (if p.backdate == 0 then 300_000_000_000 else p.backdate);
      minute % 60_000_000_000 == 0 && now - 30_000_000_000 < minute <= now + 30_000_000_000
  {
    hide WantedSubject, WantedDns, WantedIps, WantedEmails, WantedUris, Granted, FromProfile, KeyUses, ExtKeyUses;
    RoundedMinute(now);
  }

  lemma RoundedMinute(t: int)
    ensures var m := RoundMinute(t);
      m % 60_000_000_000 == 0 && t - 30_000_000_000 < m <= t + 30_000_000_000
  {
    var q, rest := t / MINUTE, t % MINUTE;
    assert t == q * MINUTE + rest;
    assert RoundMinute(t) == (if rest + rest < MINUTE then q else q + 1) * MINUTE;
    Multiple(q);
    Multiple(q + 1);
  }

  lemma Multiple(q: int)
    ensures q * MINUTE % MINUTE == 0
  {}

  /** s[i..] starts with "://" for some i. */
  predicate ContainsScheme(s: string) {
    exists i | 0 <= i && i + 2 < |s| :: s[i] == ':' && s[i + 1] == '/' && s[i + 2] == '/'
  }

  lemma {:induction false} SchemeIs(s: string)
    ensures HasScheme(s) <==> ContainsScheme(s)
  {
    if |s| >= 3 {
      var t := s[1..];
      SchemeIs(t);
      assert s[..3] == "://" <==> s[0] == ':' && s[1] == '/' && s[2] == '/';
      if i :| 0 <= i && i + 2 < |t| && t[i] == ':' && t[i + 1] == '/' && t[i + 2] == '/' {
        var j := i + 1;
        assert s[j] == ':' && s[j + 1] == '/' && s[j + 2] == '/';
      }
      if i :| 0 <= i && i + 2 < |s| && s[i] == ':' && s[i + 1] == '/' && s[i + 2] == '/' {
        var j := i - 1;
        assert i > 0 ==> t[j] == ':' && t[j + 1] == '/' && t[j + 2] == '/';
      }
    }
  }

  /** The names of a template that is not for a CA: without a list in the request they are those of
      the CSR, field by field as the profile allows. */
  lemma CsrNamesAreKept(lib: Library, p: Profile, r: Request, csr: Csr, urls: Urls, now: int, serial: nat, c: Cert)
    requires Conforms(lib, p, r, csr, urls, now, serial, c) && !p.isCa
    ensures var f := p.allowedFields;
      && (r.san.None? ==>
            && c.dns == (if f.None? || f.value.dns then csr.dns else [])
            && c.ips == (if f.None? || f.value.ips then csr.ips else [])
            && c.emails == (if f.None? || f.value.emails then csr.emails else [])
            && |c.uris| == (if f.None? || f.value.uris then |csr.uris| else 0)
            && forall i | 0 <= i < |c.uris| :: c.uris[i] == Some(csr.uris[i]))
      && (r.subject.None? ==> c.subject == if f.None? || f.value.subject then csr.subject else NO_NAME)
  {}

  /** With a list in the request, each of its names is in the template, once, by its kind: what holds
      "://" as a URI, then an IP address, an e-mail address, and all else as a DNS name. */
  lemma RequestedNamesAreGiven(lib: Library, p: Profile, r: Request, csr: Csr, urls: Urls, now: int, serial: nat, c: Cert)
    requires Conforms(lib, p, r, csr, urls, now, serial, c) && !p.isCa && r.san.Some?
    ensures |c.uris| + |c.ips| + |c.emails| + |c.dns| == |r.san.value|
    ensures forall s | s in r.san.value ::
      if ContainsScheme(s) then lib.parseUrl(s) in c.uris
      else if lib.parseIp(s).Some? then lib.parseIp(s).value in c.ips
      else if lib.parseEmail(s).Some? then lib.parseEmail(s).value in c.emails
      else s in c.dns
  {
    hide Select, Granted, FromProfile, KeyUses, ExtKeyUses, Start, End, HasScheme, ContainsScheme, WantedSubject;
    var san := r.san.value;
    Partition(lib, san);
    SizesOf(OfKind(lib, san, UriName), OfKind(lib, san, IpName), OfKind(lib, san, EmailName), OfKind(lib, san, DnsName), san);
    forall s | s in san ensures
      if ContainsScheme(s) then lib.parseUrl(s) in c.uris
      else if lib.parseIp(s).Some? then lib.parseIp(s).value in c.ips
      else if lib.parseEmail(s).Some? then lib.parseEmail(s).value in c.emails
      else s in c.dns
    {
      SchemeIs(s);
      var kind := KindOf(lib, s);
      SelectCount(san, t => KindOf(lib, t), kind, s);
      var names := OfKind(lib, san, kind);
      assert s in multiset(names);
      var i :| 0 <= i < |names| && names[i] == s;
      assert kind == UriName ==> c.uris[i] == lib.parseUrl(s);
      assert kind == IpName ==> c.ips[i] == lib.parseIp(s).value;
      assert kind == EmailName ==> c.emails[i] == lib.parseEmail(s).value;
    }
  }

  lemma SizesOf<T>(a: seq<T>, b: seq<T>, c: seq<T>, d: seq<T>, all: seq<T>)
    requires multiset(a) + multiset(b) + multiset(c) + multiset(d) == multiset(all)
    ensures |a| + |b| + |c| + |d| == |all|
  {
    assert |multiset(a) + multiset(b) + multiset(c) + multiset(d)| == |a| + |b| + |c| + |d|;
    assert |multiset(all)| == |all|;
  }

  /** The subject: what the request says goes first, attribute by attribute, and the base fills the
      gaps. */
  lemma SubjectIs(cn: string, sn: string, n: X509Name, base: Name)
    ensures Populated(None, base) == base
    ensures Populated(Some(Subject(cn, [n], sn)), base)
            == Name(if cn != "" then cn else base.commonName, if sn != "" then sn else base.serialNumber,
                    if n.c != "" then [n.c] else base.country, if n.st != "" then [n.st] else base.province,
                    if n.l != "" then [n.l] else base.locality, if n.o != "" then [n.o] else base.organization,
                    if n.ou != "" then [n.ou] else base.unit)
  {
    OneValue(n);
    hide Values;
  }

  lemma OneValue(n: X509Name)
    ensures forall get :: Values([n], get) == if get(n) != "" then [get(n)] else []
  {
    assert [n][..0] == [];
    assert forall get :: Values([], get) == [];
  }

  /** A request is accepted exactly if nothing in the profile forbids it: the names match what
      patterns there are (a nil URI none), every extension is on the list and can be decoded, the key
      has an id, an end is set, some usage of the profile is known, its policies can be encoded, and
      only a CA certificate is self-signed. */
  lemma AcceptedExactly(lib: Library, p: Profile, r: Request, csr: Csr, self: bool)
    ensures Accepted(lib, p, r, csr, self) <==>
            && (p.names.Some? && WantedSubject(p, r, csr).commonName != "" ==>
                  p.names.value(WantedSubject(p, r, csr).commonName))
            && (p.dns.Some? ==> forall s | s in WantedDns(lib, p, r, csr) :: p.dns.value(s))
            && (p.emails.Some? ==> forall s | s in WantedEmails(lib, p, r, csr) :: p.emails.value(s))
            && (p.uris.Some? ==> forall u | u in WantedUris(lib, p, r, csr) :: u.Some? && p.uris.value(u.value))
            && (forall e | e in r.extensions :: e.id in p.extensions && lib.decodeHex(e.hex).Some?)
            && lib.keyId(csr.key).Some? && !(p.expiry == 0 && r.notAfter.None?)
            && (exists u | u in p.usage :: u in lib.keyUsage || u in lib.extKeyUsage)
            && (p.policies != [] ==> lib.marshalPolicies(p.policies).Some?)
            && (self ==> p.isCa)
  {
    hide WantedSubject, WantedDns, WantedIps, WantedEmails, WantedUris;
    AnyUsage(lib, p.usage);
  }

  lemma AnyUsage(lib: Library, usage: seq<string>)
    ensures KeyUses(lib, usage) != {} || ExtKeyUses(lib, usage) != []
            <==> exists u | u in usage :: u in lib.keyUsage || u in lib.extKeyUsage
  {
    ExtUsesAre(lib, usage);
    if u :| u in usage && u in lib.keyUsage {
      assert lib.keyUsage[u] in KeyUses(lib, usage);
    }
    if KeyUses(lib, usage) != {} {
      var b :| b in KeyUses(lib, usage);
    }
    if ExtKeyUses(lib, usage) != [] {
      assert ExtKeyUses(lib, usage)[0] in ExtKeyUses(lib, usage);
    }
  }

  /** Two requests to a profile with a list of allowed fields agree on what it allows. */
  predicate SameAllowed(f: AllowedFields, a: Csr, b: Csr) {
    && a.key == b.key
    && (f.subject ==> a.subject == b.subject) && (f.dns ==> a.dns == b.dns) && (f.ips ==> a.ips == b.ips)
    && (f.emails ==> a.emails == b.emails) && (f.uris ==> a.uris == b.uris)
  }

  /** With a list of allowed fields, nothing else in the CSR has any influence: not on whether the
      request is accepted and not on the template. */
  lemma CsrHasNoOtherInfluence(lib: Library, p: Profile, r: Request, a: Csr, b: Csr, urls: Urls, now: int,
                               serial: nat, c: Cert, self: bool)
    requires p.allowedFields.Some? && SameAllowed(p.allowedFields.value, a, b)
    ensures Accepted(lib, p, r, a, self) <==> Accepted(lib, p, r, b, self)
    ensures Conforms(lib, p, r, a, urls, now, serial, c) <==> Conforms(lib, p, r, b, urls, now, serial, c)
  {
    assert WantedSubject(p, r, a) == WantedSubject(p, r, b);
    assert WantedDns(lib, p, r, a) == WantedDns(lib, p, r, b);
    assert WantedIps(lib, p, r, a) == WantedIps(lib, p, r, b);
    assert WantedEmails(lib, p, r, a) == WantedEmails(lib, p, r, b);
    assert WantedUris(lib, p, r, a) == WantedUris(lib, p, r, b);
  }

  /** Two CSRs that differ in their basic constraints at most. */
  predicate SameButConstraints(a: Csr, b: Csr) {
    b == a.(isCa := b.isCa, maxPathLen := b.maxPathLen, maxPathLenZero := b.maxPathLenZero)
  }

  /** What a CSR gets by asking for basic constraints: nothing from a profile that issues CA
      certificates or lists the allowed fields; from another one its path length stays in the
      template, although that is no CA, and nothing else does: not the CA flag, not acceptance. */
  lemma PathLenOfCsr(lib: Library, p: Profile, r: Request, a: Csr, b: Csr, urls: Urls, now: int,
                     serial: nat, c: Cert, self: bool)
    requires SameButConstraints(a, b)
    ensures Accepted(lib, p, r, a, self) <==> Accepted(lib, p, r, b, self)
    ensures Conforms(lib, p, r, a, urls, now, serial, c) ==>
      Conforms(lib, p, r, b, urls, now, serial,
               if p.isCa || p.allowedFields.Some? then c
               else c.(maxPathLen := b.maxPathLen, maxPathLenZero := b.maxPathLenZero))
    ensures Conforms(lib, p, r, a, urls, now, serial, c) && !p.isCa ==>
      !c.isCa && (c.maxPathLen != 0 <==> p.allowedFields.None? && a.maxPathLen != 0)
  {
    assert WantedSubject(p, r, a) == WantedSubject(p, r, b);
    assert WantedDns(lib, p, r, a) == WantedDns(lib, p, r, b);
    assert WantedIps(lib, p, r, a) == WantedIps(lib, p, r, b);
    assert WantedEmails(lib, p, r, a) == WantedEmails(lib, p, r, b);
    assert WantedUris(lib, p, r, a) == WantedUris(lib, p, r, b);
    hide WantedSubject, WantedDns, WantedIps, WantedEmails, WantedUris;
  }

  /** A template that is handed on holds a nil URI, on which certificate creation panics, exactly
      when a requested URI could not be parsed and the profile has no URI pattern and is no CA. */
  lemma NilUriHandedOn(lib: Library, p: Profile, r: Request, csr: Csr, urls: Urls, now: int, serial: nat, c: Cert, self: bool)
    requires Accepted(lib, p, r, csr, self) && Conforms(lib, p, r, csr, urls, now, serial, c)
    ensures None in c.uris <==> p.uris.None? && !p.isCa && None in WantedUris(lib, p, r, csr)
    ensures None in WantedUris(lib, p, r, csr) <==>
            r.san.Some? && exists s | s in r.san.value :: HasScheme(s) && lib.parseUrl(s).None?
  {
    hide TextMatches, ExtensionsAllowed, Fillable, WantedSubject, WantedDns, WantedIps, WantedEmails;
    assert p.uris.Some? ==> forall u | u in WantedUris(lib, p, r, csr) :: UriMatches(p.uris, u);
    if r.san.Some? {
      NilUris(lib, r.san.value);
    } else {
      assert None !in WantedUris(lib, p, r, csr);
    }
  }

  lemma NilUris(lib: Library, san: seq<string>)
    ensures None in Map(lib.parseUrl, OfKind(lib, san, UriName))
            <==> exists s | s in san :: HasScheme(s) && lib.parseUrl(s).None?
  {
    hide Select;
    var names := OfKind(lib, san, UriName);
    var uris := Map(lib.parseUrl, names);
    if None in uris {
      var i :| 0 <= i < |uris| && uris[i] == None;
      assert names[i] in names && KindOf(lib, names[i]) == UriName;
    }
    if s :| s in san && HasScheme(s) && lib.parseUrl(s).None? {
      SelectCount(san, t => KindOf(lib, t), UriName, s);
      assert s in multiset(names);
      var i :| 0 <= i < |names| && names[i] == s;
      assert uris[i] == None;
    }
  }

  // ----- Serial numbers -----

  /** SetBytes: a big-endian number. */
  function BigEndian(b: Bytes): nat {
    if b == [] then 0 else BigEndian(b[..|b| - 1]) * 256 + b[|b| - 1]
  }

  function Power(n: nat): nat {
    if n == 0 then 1 else 256 * Power(n - 1)
  }

  predicate AreBytes(b: Bytes) {
    forall i | 0 <= i < |b| :: b[i] < 256
  }

  lemma NextByte(x: nat, top: nat, n: nat, last: nat)
    requires n > 0 && x < top * Power(n - 1) && last < 256
    ensures x * 256 + last < top * Power(n)
  {
    var y := top * Power(n - 1);
    assert top * Power(n) == y * 256;
  }

  lemma {:induction false} BigEndianBound(b: Bytes, top: nat)
    requires AreBytes(b) && b != [] && b[0] < top
    ensures BigEndian(b) < top * Power(|b| - 1)
    ensures BigEndian(b) == 0 <==> forall i | 0 <= i < |b| :: b[i] == 0
  {
    var n := |b| - 1;
    var front := b[..n];
    assert b == front + [b[n]];
    if n == 0 {
      assert BigEndian([]) == 0 && front == [];
    } else {
      BigEndianBound(front, top);
      assert forall i | 0 <= i < n :: front[i] == b[i];
      NextByte(BigEndian(front), top, n, b[n]);
    }
  }

  /** The serial number made of 20 random bytes with the first bit masked is below 2^159; it is
      zero, which RFC 5280 section 4.1.2.2 forbids, when all other bits are. */
  function SerialOf(random: Bytes): nat
    requires |random| == 20
  {
    BigEndian([random[0] % 128] + random[1..])
  }

  lemma SerialRange(random: Bytes)
    requires |random| == 20 && AreBytes(random)
    ensures SerialOf(random) < 0x8000_0000_0000_0000_0000_0000_0000_0000_0000_0000
    ensures SerialOf(random) == 0 <==> random[0] % 128 == 0 && forall i | 1 <= i < 20 :: random[i] == 0
  {
    var b := [random[0] % 128] + random[1..];
    assert forall i | 1 <= i < 20 :: b[i] == random[i];
    BigEndianBound(b, 128);
    Power19();
  }

  lemma Power19()
    ensures 128 * Power(19) == 0x8000_0000_0000_0000_0000_0000_0000_0000_0000_0000
  {
    assert Power(4) == 0x1_0000_0000;
    assert Power(8) == 0x1_0000_0000_0000_0000;
    assert Power(12) == 0x1_0000_0000_0000_0000_0000_0000;
    assert Power(16) == 0x1_0000_0000_0000_0000_0000_0000_0000_0000;
  }
}
