/** Sign up to certificate creation (xpki/authority/issuer.go, config.go, xpki/csr/csr.go): a
    template that is filled in step by step. */
module Signing {
  import opened Wrappers

  import opened SigningPolicy

  /** The template handed to certificate creation, an error, or a panic. */
  datatype Outcome = Handed(cert: Cert) | Refused | Crashed

  class Template {
    var c: Cert

    constructor (c: Cert)
      ensures this.c == c
    {
      this.c := c;
    }
  }

  lemma Next<T>(s: seq<T>, i: nat)
    requires i < |s|
    ensures s[..i + 1] == s[..i] + [s[i]] && s[..i + 1][..i] == s[..i]
  {}

  /** The names of a request replace those of the template, sorted by their kind. */
  method SetSan(template: Template, lib: Library, san: Option<seq<string>>)
    modifies template
    ensures template.c == if san.None? then old(template.c) else old(template.c).(
                dns := OfKind(lib, san.value, DnsName),
                ips := Map(Force(lib.parseIp), OfKind(lib, san.value, IpName)),
                emails := Map(Force(lib.parseEmail), OfKind(lib, san.value, EmailName)),
                uris := Map(lib.parseUrl, OfKind(lib, san.value, UriName)))
  {
    if san.None? {
      return;
    }
    var names := san.value;
    ghost var before := template.c;
    template.c := template.c.(ips := [], emails := [], dns := [], uris := []);
    for i := 0 to |names|
      invariant template.c == SanSet(before, lib, names[..i])
    {
      Next(names, i);
      SanStep(before, lib, names[..i], names[i]);
      var name := names[i];
      if HasScheme(name) {
        template.c := template.c.(uris := template.c.uris + [lib.parseUrl(name)]);
      } else {
        var ip := lib.parseIp(name);
        if ip.Some? {
          template.c := template.c.(ips := template.c.ips + [ip.value]);
        } else {
          var email := lib.parseEmail(name);
          if email.Some? {
            template.c := template.c.(emails := template.c.emails + [email.value]);
          } else {
            template.c := template.c.(dns := template.c.dns + [name]);
          }
        }
      }
    }
    assert names[..|names|] == names;
  }

  function SanSet(c: Cert, lib: Library, names: seq<string>): Cert {
    c.(dns := OfKind(lib, names, DnsName),
       ips := Map(Force(lib.parseIp), OfKind(lib, names, IpName)),
       emails := Map(Force(lib.parseEmail), OfKind(lib, names, EmailName)),
       uris := Map(lib.parseUrl, OfKind(lib, names, UriName)))
  }

  lemma MapSnoc<A, B>(f: A -> B, s: seq<A>, x: A)
    ensures Map(f, s + [x]) == Map(f, s) + [f(x)]
  {}

  lemma KindSnoc(lib: Library, names: seq<string>, s: string, kind: Kind)
    ensures OfKind(lib, names + [s], kind) == OfKind(lib, names, kind) + (if KindOf(lib, s) == kind then [s] else [])
  {}

  /** One more name changes one of the four lists. */
  lemma SanStep(c: Cert, lib: Library, names: seq<string>, s: string)
    ensures var t := SanSet(c, lib, names);
      SanSet(c, lib, names + [s]) ==
      match KindOf(lib, s)
      case UriName => t.(uris := t.uris + [lib.parseUrl(s)])
      case IpName => t.(ips := t.ips + [Force(lib.parseIp)(s)])
      case EmailName => t.(emails := t.emails + [Force(lib.parseEmail)(s)])
      case DnsName => t.(dns := t.dns + [s])
  {
    hide OfKind, KindOf, Map;
    KindSnoc(lib, names, s, UriName);
    KindSnoc(lib, names, s, IpName);
    KindSnoc(lib, names, s, EmailName);
    KindSnoc(lib, names, s, DnsName);
    MapSnoc(lib.parseUrl, OfKind(lib, names, UriName), s);
    MapSnoc(Force(lib.parseIp), OfKind(lib, names, IpName), s);
    MapSnoc(Force(lib.parseEmail), OfKind(lib, names, EmailName), s);
    Nothing(OfKind(lib, names, UriName));
    Nothing(OfKind(lib, names, IpName));
    Nothing(OfKind(lib, names, EmailName));
    Nothing(OfKind(lib, names, DnsName));
  }

  lemma Nothing<T>(s: seq<T>)
    ensures s + [] == s
  {}

  // ----- Names -----

  function Add(s: seq<string>, v: string): seq<string> {
    s + (if v != "" then [v] else [])
  }

  lemma ValuesSnoc(names: seq<X509Name>, n: X509Name, get: X509Name -> string)
    ensures Values(names + [n], get) == Add(Values(names, get), get(n))
  {}

  /** X509Subject.Name */
  method SubjectName(s: Subject) returns (name: Name)
    ensures name == NameOf(s)
  {
    hide Values;
    name := NO_NAME.(commonName := s.commonName, serialNumber := s.serialNumber);
    NoValues();
    for i := 0 to |s.names|
      invariant name == NameOf(s.(names := s.names[..i]))
    {
      Next(s.names, i);
      var n := s.names[i];
      var before := s.names[..i];
      ValuesSnoc(before, n, (n: X509Name) => n.c);
      ValuesSnoc(before, n, (n: X509Name) => n.st);
      ValuesSnoc(before, n, (n: X509Name) => n.l);
      ValuesSnoc(before, n, (n: X509Name) => n.o);
      ValuesSnoc(before, n, (n: X509Name) => n.ou);
      name := name.(country := Add(name.country, n.c), province := Add(name.province, n.st),
                    locality := Add(name.locality, n.l), organization := Add(name.organization, n.o),
                    unit := Add(name.unit, n.ou));
    }
    assert s.names[..|s.names|] == s.names;
  }

  lemma NoValues()
    ensures forall get :: Values([], get) == []
  {}

  method PopulateName(s: Option<Subject>, base: Name) returns (name: Name)
    ensures name == Populated(s, base)
  {
    if s.None? {
      return base;
    }
    name := SubjectName(s.value);
    if name.commonName == "" {
      name := name.(commonName := base.commonName);
    }
    name := name.(country := Or(name.country, base.country), province := Or(name.province, base.province),
                  locality := Or(name.locality, base.locality),
                  organization := Or(name.organization, base.organization), unit := Or(name.unit, base.unit));
    if name.serialNumber == "" {
      name := name.(serialNumber := base.serialNumber);
    }
  }

  // ----- Usages -----

  /** CertProfile.Usages */
  method Usages(lib: Library, usage: seq<string>) returns (ku: set<nat>, eku: seq<nat>, unknown: seq<string>)
    ensures ku == KeyUses(lib, usage) && eku == ExtKeyUses(lib, usage)
    ensures forall u :: u in unknown <==> u in usage && u !in lib.keyUsage && u !in lib.extKeyUsage
  {
    ku, eku, unknown := {}, [], [];
    for i := 0 to |usage|
      invariant ku == KeyUses(lib, usage[..i]) && eku == ExtKeyUses(lib, usage[..i])
      invariant forall u :: u in unknown <==> u in usage[..i] && u !in lib.keyUsage && u !in lib.extKeyUsage
    {
      Next(usage, i);
      UsesSnoc(lib, usage[..i], usage[i]);
      var use := usage[i];
      if use in lib.keyUsage {
        ku := ku + {lib.keyUsage[use]};
      } else if use in lib.extKeyUsage {
        eku := eku + [lib.extKeyUsage[use]];
      } else {
        unknown := unknown + [use];
      }
    }
    assert usage[..|usage|] == usage;
  }

  lemma UsesSnoc(lib: Library, usage: seq<string>, u: string)
    ensures KeyUses(lib, usage + [u])
            == KeyUses(lib, usage) + (if u in lib.keyUsage then {lib.keyUsage[u]} else {})
    ensures ExtKeyUses(lib, usage + [u]) == ExtKeyUses(lib, usage)
            + (if u !in lib.keyUsage && u in lib.extKeyUsage then [lib.extKeyUsage[u]] else [])
  {}

  // ----- Filling in the template -----

  function LaterStart(had: Option<int>, t: int): Option<int> {
    if had.None? || had.value < t then Some(t) else had
  }

  function EarlierEnd(had: Option<int>, t: int): Option<int> {
    if had.None? || t < had.value then Some(t) else had
  }

  function WithUrls(c: Cert, urls: Urls): Cert {
    c.(ocsp := if urls.ocsp == "" then c.ocsp else [urls.ocsp],
       crl := if urls.crl == "" then c.crl else [urls.crl],
       issuing := if urls.issuing == "" then c.issuing else [urls.issuing])
  }

  /** The template after fillTemplate. */
  function Filled(lib: Library, p: Profile, r: Request, urls: Urls, now: int, key: Key, c: Cert): Cert {
    var t := c.(
      notBefore := LaterStart(c.notBefore, Start(p, r, now)), notAfter := EarlierEnd(c.notAfter, End(p, r, now)),
      keyUsage := KeyUses(lib, p.usage), extKeyUsage := ExtKeyUses(lib, p.usage),
      basicConstraints := true, isCa := p.isCa, subjectKeyId := lib.keyId(key).GetOr([]),
      extra := c.extra + FromProfile(lib, p));
    var u := if !p.isCa then t
             else t.(maxPathLen := p.maxPathLen, maxPathLenZero := p.maxPathLen == 0,
                     dns := [], ips := [], emails := [], uris := []);
    WithUrls(u, urls)
  }

  method Validity(p: Profile, r: Request, now: int) returns (notBefore: int, notAfter: int)
    ensures notBefore == Start(p, r, now) && notAfter == End(p, r, now)
  {
    notBefore := r.notBefore.GetOr(0);
    if r.notBefore.None? {
      var backdate := -1 * p.backdate;
      if backdate == 0 {
        backdate := -5 * MINUTE;
      }
      notBefore := RoundMinute(now) + backdate;
    }
    notAfter := if r.notAfter.None? then notBefore + p.expiry else r.notAfter.value;
  }

  method AddProfileExtensions(template: Template, lib: Library, p: Profile) returns (ok: bool)
    modifies template
    ensures ok <==> (p.policies != [] ==> lib.marshalPolicies(p.policies).Some?)
    ensures ok ==> template.c == old(template.c).(extra := old(template.c).extra + FromProfile(lib, p))
  {
    if p.policies != [] {
      var value := lib.marshalPolicies(p.policies);
      if value.None? {
        return false;
      }
      template.c := template.c.(extra := template.c.extra + [Extension(POLICIES_ID, false, value.value)]);
    }
    if p.ocspNoCheck {
      template.c := template.c.(extra := template.c.extra + [OCSP_NO_CHECK]);
    }
    assert template.c.extra == old(template.c).extra + FromProfile(lib, p);
    ok := true;
  }

  method AddUrls(template: Template, urls: Urls)
    modifies template
    ensures template.c == WithUrls(old(template.c), urls)
  {
    if urls.ocsp != "" {
      template.c := template.c.(ocsp := [urls.ocsp]);
    }
    if urls.crl != "" {
      template.c := template.c.(crl := [urls.crl]);
    }
    if urls.issuing != "" {
      template.c := template.c.(issuing := [urls.issuing]);
    }
  }

  method FillTemplate(template: Template, lib: Library, p: Profile, r: Request, urls: Urls, now: int, key: Key)
    returns (ok: bool)
    modifies template
    ensures ok <==> Fillable(lib, p, r, key)
    ensures ok ==> template.c == Filled(lib, p, r, urls, now, key, old(template.c))
  {
    hide KeyUses, ExtKeyUses, FromProfile, Start, End, LaterStart, EarlierEnd;
    var ski := lib.keyId(key);
    if ski.None? {
      return false;
    }
    if p.expiry == 0 && r.notAfter.None? {
      return false;
    }
    var ku, eku, _ := Usages(lib, p.usage);
    if ku == {} && eku == [] {
      return false;
    }
    var notBefore, notAfter := Validity(p, r, now);
    template.c := template.c.(notBefore := LaterStart(template.c.notBefore, notBefore),
                              notAfter := EarlierEnd(template.c.notAfter, notAfter));
    template.c := template.c.(keyUsage := ku, extKeyUsage := eku, basicConstraints := true, isCa := p.isCa);
    if template.c.isCa {
      template.c := template.c.(maxPathLen := p.maxPathLen, maxPathLenZero := p.maxPathLen == 0,
                                dns := [], ips := [], emails := [], uris := []);
    }
    template.c := template.c.(subjectKeyId := ski.value);
    AddUrls(template, urls);
    ok := AddProfileExtensions(template, lib, p);
  }

  // ----- Sign -----

  method CheckAll(pattern: Option<Pattern>, names: seq<string>) returns (ok: bool)
    ensures ok <==> AllMatch(pattern, names)
  {
    if pattern.None? {
      return true;
    }
    for i := 0 to |names|
      invariant forall j | 0 <= j < i :: Matches(pattern, names[j])
    {
      if !pattern.value(names[i]) {
        assert names[i] in names && !Matches(pattern, names[i]);
        return false;
      }
    }
    ok := true;
  }

  /** String on a nil URI panics. */
  method CheckUris(pattern: Option<Pattern>, uris: seq<Uri>) returns (ok: bool, crashed: bool)
    ensures ok <==> UrisMatch(pattern, uris)
    ensures crashed <==> FirstBadUriIsNil(pattern, uris)
    ensures ok ==> !crashed
  {
    crashed := false;
    if pattern.None? {
      return true, false;
    }
    for i := 0 to |uris|
      invariant forall j | 0 <= j < i :: UriMatches(pattern, uris[j])
    {
      if uris[i].None? || !pattern.value(uris[i].value) {
        assert uris[i] in uris && !UriMatches(pattern, uris[i]);
        return false, uris[i].None?;
      }
    }
    ok := true;
  }

  /** The loop over the requested extensions. */
  method AddExtensions(template: Template, lib: Library, p: Profile, exts: seq<ExtensionRequest>) returns (ok: bool)
    modifies template
    ensures ok <==> ExtensionsAllowed(lib, p, exts)
    ensures ok ==> template.c == old(template.c).(extra := old(template.c).extra + Granted(lib, exts))
  {
    ghost var before := template.c;
    for i := 0 to |exts|
      invariant template.c == before.(extra := before.extra + Granted(lib, exts[..i]))
      invariant forall j | 0 <= j < i :: exts[j].id in p.extensions && lib.decodeHex(exts[j].hex).Some?
    {
      Next(exts, i);
      var e := exts[i];
      assert e in exts;
      if e.id !in p.extensions {
        return false;
      }
      var value := lib.decodeHex(e.hex);
      if value.None? {
        return false;
      }
      template.c := template.c.(extra := template.c.extra + [Extension(e.id, e.critical, value.value)]);
      assert Granted(lib, exts[..i + 1]) == Granted(lib, exts[..i]) + [Extension(e.id, e.critical, value.value)];
    }
    assert exts[..|exts|] == exts;
    ok := true;
  }

  /** What may be taken over from the CSR. */
  function FromCsr(p: Profile, csr: Csr): Cert {
    var f := Fields(p);
    var uris := Map(u => Some(u), csr.uris);
    var c := EMPTY.(
      subject := if f.subject then csr.subject else NO_NAME, dns := if f.dns then csr.dns else [],
      ips := if f.ips then csr.ips else [], emails := if f.emails then csr.emails else [],
      uris := if f.uris then uris else [], key := Some(csr.key));
    if p.allowedFields.None? then
      c.(isCa := csr.isCa, maxPathLen := csr.maxPathLen, maxPathLenZero := csr.maxPathLenZero)
    else c
  }

  method CopyFields(p: Profile, csr: Csr) returns (template: Template)
    ensures fresh(template) && template.c == FromCsr(p, csr)
  {
    template := new Template(EMPTY);
    if p.allowedFields.None? {
      template.c := template.c.(subject := csr.subject, dns := csr.dns, ips := csr.ips, emails := csr.emails,
                                uris := Map(u => Some(u), csr.uris), key := Some(csr.key),
                                isCa := csr.isCa, maxPathLen := csr.maxPathLen,
                                maxPathLenZero := csr.maxPathLenZero);
    } else {
      var f := p.allowedFields.value;
      if f.subject {
        template.c := template.c.(subject := csr.subject);
      }
      if f.dns {
        template.c := template.c.(dns := csr.dns);
      }
      if f.ips {
        template.c := template.c.(ips := csr.ips);
      }
      if f.uris {
        template.c := template.c.(uris := Map(u => Some(u), csr.uris));
      }
      if f.emails {
        template.c := template.c.(emails := csr.emails);
      }
      template.c := template.c.(key := Some(csr.key));
    }
  }

  /** The template before the checks. */
  function Prepared(lib: Library, p: Profile, r: Request, csr: Csr): Cert {
    FromCsr(p, csr).(
    subject := WantedSubject(p, r, csr), dns := WantedDns(lib, p, r, csr), ips := WantedIps(lib, p, r, csr),
    emails := WantedEmails(lib, p, r, csr), uris := WantedUris(lib, p, r, csr))
  }

  method Prepare(lib: Library, p: Profile, r: Request, csr: Csr) returns (template: Template)
    ensures fresh(template) && template.c == Prepared(lib, p, r, csr)
  {
    hide OfKind, Map, Populated;
    template := CopyFields(p, csr);
    SetSan(template, lib, r.san);
    var name := PopulateName(r.subject, template.c.subject);
    template.c := template.c.(subject := name);
  }

  /** The checks against the patterns of the profile. */
  method CheckNames(lib: Library, p: Profile, r: Request, csr: Csr, c: Cert) returns (ok: bool, crashed: bool)
    requires c == Prepared(lib, p, r, csr)
    ensures ok <==> TextMatches(lib, p, r, csr) && UrisMatch(p.uris, WantedUris(lib, p, r, csr))
    ensures crashed <==> TextMatches(lib, p, r, csr) && FirstBadUriIsNil(p.uris, WantedUris(lib, p, r, csr))
    ensures ok ==> !crashed
  {
    hide WantedSubject, WantedDns, WantedIps, WantedEmails, WantedUris, UrisMatch, FirstBadUriIsNil, AllMatch, FromCsr;
    if p.names.Some? && c.subject.commonName != "" && !p.names.value(c.subject.commonName) {
      return false, false;
    }
    ok := CheckAll(p.dns, c.dns);
    if !ok {
      return false, false;
    }
    ok := CheckAll(p.emails, c.emails);
    if !ok {
      return false, false;
    }
    ok, crashed := CheckUris(p.uris, c.uris);
  }

  /** The steps of Sign together give a template that conforms. */
  lemma FilledConforms(lib: Library, p: Profile, r: Request, csr: Csr, urls: Urls, now: int, serial: nat, key: Key)
    requires key == csr.key
    ensures var c := Prepared(lib, p, r, csr);
      var d := c.(serial := serial);
      var e := d.(extra := d.extra + Granted(lib, r.extensions));
      var f := Filled(lib, p, r, urls, now, key, e);
      f.isCa == p.isCa && (Fillable(lib, p, r, key) ==> Conforms(lib, p, r, csr, urls, now, serial, f))
  {
    hide WantedSubject, WantedDns, WantedIps, WantedEmails, WantedUris, Granted, FromProfile, KeyUses, ExtKeyUses,
         Start, End;
    Nothing(Granted(lib, r.extensions));
    assert [] + Granted(lib, r.extensions) == Granted(lib, r.extensions);
  }

  class Issuer {
    const profiles: map<string, Profile>
    const lib: Library
    const urls: Urls
    const selfSigned: bool

    constructor (profiles: map<string, Profile>, lib: Library, urls: Urls, selfSigned: bool)
      ensures this.profiles == profiles && this.lib == lib && this.urls == urls && this.selfSigned == selfSigned
    {
      this.profiles, this.lib, this.urls, this.selfSigned := profiles, lib, urls, selfSigned;
    }

    function ProfileOf(r: Request): Option<Profile> {
      var name := if r.profile == "" then "default" else r.profile;
      if name in profiles then Some(profiles[name]) else None
    }

    /** A request without a profile gets the one named "default". */
    lemma ProfileNames(r: Request)
      ensures r.profile == "" && "default" in profiles ==> ProfileOf(r) == Some(profiles["default"])
      ensures r.profile != "" && r.profile in profiles ==> ProfileOf(r) == Some(profiles[r.profile])
      ensures ProfileOf(r).None? <==> (r.profile == "" && "default" !in profiles) || (r.profile != "" && r.profile !in profiles)
    {}

    /** Exactly the accepted requests get a template, and it conforms to the profile. A URI among
        the requested names that cannot be parsed makes Sign panic here once the profile has a
        pattern, and otherwise later, when certificate creation meets the nil URI: exactly when a
        handed template holds one. */
    method Sign(r: Request, now: int, random: Bytes) returns (o: Outcome)
      requires |random| == 20
      ensures o.Handed? <==> ProfileOf(r).Some? && r.csr.Some?
                             && Accepted(lib, ProfileOf(r).value, r, r.csr.value, selfSigned)
      ensures o.Handed? ==> Conforms(lib, ProfileOf(r).value, r, r.csr.value, urls, now, SerialOf(random), o.cert)
      ensures o.Handed? ==> (None in o.cert.uris <==>
                var p := ProfileOf(r).value;
                p.uris.None? && !p.isCa && None in WantedUris(lib, p, r, r.csr.value))
      ensures o.Crashed? <==> ProfileOf(r).Some? && r.csr.Some?
                              && TextMatches(lib, ProfileOf(r).value, r, r.csr.value)
                              && FirstBadUriIsNil(ProfileOf(r).value.uris,
                                                  WantedUris(lib, ProfileOf(r).value, r, r.csr.value))
    {
      if ProfileOf(r).None? || r.csr.None? {
        return Refused;
      }
      var p, csr := ProfileOf(r).value, r.csr.value;
      o := SignWith(p, r, csr, now, random);
      if o.Handed? {
        NilUriHandedOn(lib, p, r, csr, urls, now, SerialOf(random), o.cert, selfSigned);
      }
    }

    method SignWith(p: Profile, r: Request, csr: Csr, now: int, random: Bytes) returns (o: Outcome)
      requires |random| == 20
      ensures o.Handed? <==> Accepted(lib, p, r, csr, selfSigned)
      ensures o.Handed? ==> Conforms(lib, p, r, csr, urls, now, SerialOf(random), o.cert)
      ensures o.Crashed? <==> TextMatches(lib, p, r, csr) && FirstBadUriIsNil(p.uris, WantedUris(lib, p, r, csr))
    {
      hide SerialOf, Prepared, Fillable, Filled, Granted, ExtensionsAllowed, UrisMatch, FirstBadUriIsNil, TextMatches,
           WantedSubject, WantedDns, WantedIps, WantedEmails, WantedUris, Conforms;
      var template := Prepare(lib, p, r, csr);
      ghost var prepared := template.c;
      var ok, crashed := CheckNames(lib, p, r, csr, template.c);
      if !ok {
        return if crashed then Crashed else Refused;
      }
      template.c := template.c.(serial := SerialOf(random));
      ok := AddExtensions(template, lib, p, r.extensions);
      if !ok {
        return Refused;
      }
      ok := FillTemplate(template, lib, p, r, urls, now, csr.key);
      FilledConforms(lib, p, r, csr, urls, now, SerialOf(random), csr.key);
      if !ok || (selfSigned && !template.c.isCa) {
        return Refused;
      }
      o := Handed(template.c);
    }
  }
}
