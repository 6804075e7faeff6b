/** The controller that keeps the served TLS configuration up to date with the content
of its certificate providers.  Parsing of PEM and X.509 is a parameter. */
module ServingCertificates {
  import opened Options

  type Bytes = seq<int>
  type Certificate = int
  type CertPool = int

  // ----- content

  datatype CertKey = CertKey(cert: Bytes, key: Bytes) {
    predicate Empty() {
      |cert| == 0 || |key| == 0
    }
  }

  datatype SNICert = SNICert(certKey: CertKey, sniNames: seq<string>)

  datatype Content = Content(clientCA: Bytes, servingCert: CertKey, sniCerts: seq<SNICert>)

  /** What the providers currently offer; absent providers are `None`. */
  datatype Providers = Providers(clientCA: Option<Bytes>, servingCert: Option<CertKey>, sniCerts: seq<SNICert>)

  /** The content to serve, unless some certificate is empty. */
  function ContentOf(p: Providers): Option<Content> {
    if (p.servingCert.Some? && p.servingCert.value.Empty()) ||
       (exists i | 0 <= i < |p.sniCerts| :: p.sniCerts[i].certKey.Empty())
    then None
    else
      Some(Content(
        if p.clientCA.Some? then p.clientCA.value else [],
        if p.servingCert.Some? then p.servingCert.value else CertKey([], []),
        p.sniCerts))
  }

  method NewTLSContent(p: Providers) returns (r: Option<Content>)
    ensures r == ContentOf(p)
    ensures r.None? <==>
            || (p.servingCert.Some? && (p.servingCert.value.cert == [] || p.servingCert.value.key == []))
            || exists i | 0 <= i < |p.sniCerts| :: p.sniCerts[i].certKey.cert == [] || p.sniCerts[i].certKey.key == []
    ensures r.Some? ==>
              && r.value.clientCA == (if p.clientCA.Some? then p.clientCA.value else [])
              && r.value.servingCert == (if p.servingCert.Some? then p.servingCert.value else CertKey([], []))
              && r.value.sniCerts == p.sniCerts
  {
    var content := Content([], CertKey([], []), []);
    if p.clientCA.Some? {
      content := content.(clientCA := p.clientCA.value);
    }
    if p.servingCert.Some? {
      if p.servingCert.value.Empty() {
        return None;
      }
      content := content.(servingCert := p.servingCert.value);
    }
    for i := 0 to |p.sniCerts|
      invariant content == Content(
                  if p.clientCA.Some? then p.clientCA.value else [],
                  if p.servingCert.Some? then p.servingCert.value else CertKey([], []),
                  p.sniCerts[..i])
      invariant forall j | 0 <= j < i :: !p.sniCerts[j].certKey.Empty()
    {
      if p.sniCerts[i].certKey.Empty() {
        return None;
      }
      content := content.(sniCerts := content.sniCerts + [p.sniCerts[i]]);
    }
    assert p.sniCerts[..|p.sniCerts|] == p.sniCerts;
    return Some(content);
  }

  /** Field by field and element by element. */
  method ContentEqual(a: Option<Content>, b: Option<Content>) returns (eq: bool)
    ensures eq <==> a == b
  {
    if a.None? || b.None? {
      return a == b;
    }
    var c, d := a.value, b.value;
    if c.clientCA != d.clientCA {
      return false;
    }
    if !(c.servingCert.key == d.servingCert.key && c.servingCert.cert == d.servingCert.cert) {
      return false;
    }
    if |c.sniCerts| != |d.sniCerts| {
      return false;
    }
    for i := 0 to |c.sniCerts|
      invariant forall j | 0 <= j < i :: c.sniCerts[j] == d.sniCerts[j]
    {
      var same := SNIEqual(c.sniCerts[i], d.sniCerts[i]);
      if !same {
        return false;
      }
    }
    assert c.sniCerts == d.sniCerts;
    return true;
  }

  method SNIEqual(a: SNICert, b: SNICert) returns (eq: bool)
    ensures eq <==> a == b
  {
    if |a.sniNames| != |b.sniNames| {
      return false;
    }
    for i := 0 to |a.sniNames|
      invariant forall j | 0 <= j < i :: a.sniNames[j] == b.sniNames[j]
    {
      if a.sniNames[i] != b.sniNames[i] {
        return false;
      }
    }
    assert a.sniNames == b.sniNames;
    return a.certKey.key == b.certKey.key && a.certKey.cert == b.certKey.cert;
  }

  // ----- names

  /** The parsers that a controller depends on. */
  datatype Parsers = Parsers(
    keyPair: CertKey -> Option<Certificate>,
    validServing: Certificate -> bool,
    certNames: Certificate -> seq<string>,
    caPool: Bytes -> Option<CertPool>)

  type Names = map<string, Certificate>

  predicate AllParse(ps: Parsers, cs: seq<SNICert>) {
    forall i | 0 <= i < |cs| :: ps.keyPair(cs[i].certKey).Some?
  }

  function CertAt(ps: Parsers, cs: seq<SNICert>, i: nat): Certificate
    requires AllParse(ps, cs) && i < |cs|
  {
    ps.keyPair(cs[i].certKey).value
  }

  /** The names that certificate `i` carries of itself: used only if it has no explicit ones. */
  function OwnNames(ps: Parsers, cs: seq<SNICert>, i: nat): seq<string>
    requires AllParse(ps, cs) && i < |cs|
  {
    if cs[i].sniNames == [] then ps.certNames(CertAt(ps, cs, i)) else []
  }

  function AssignAll(m: Names, names: seq<string>, cert: Certificate): Names {
    m + map n | n in names :: cert
  }

  /** What the certificates from `i` on are named explicitly, or of themselves. */
  function ExplicitFrom(ps: Parsers, cs: seq<SNICert>, i: nat): Names
    requires AllParse(ps, cs) && i <= |cs|
    decreases |cs| - i
  {
    if i == |cs| then map[] else AssignAll(ExplicitFrom(ps, cs, i + 1), cs[i].sniNames, CertAt(ps, cs, i))
  }

  function ImplicitFrom(ps: Parsers, cs: seq<SNICert>, i: nat): Names
    requires AllParse(ps, cs) && i <= |cs|
    decreases |cs| - i
  {
    if i == |cs| then map[] else AssignAll(ImplicitFrom(ps, cs, i + 1), OwnNames(ps, cs, i), CertAt(ps, cs, i))
  }

  function NamesOf(ps: Parsers, cs: seq<SNICert>): Names
    requires AllParse(ps, cs)
  {
    ImplicitFrom(ps, cs, 0) + ExplicitFrom(ps, cs, 0)
  }

  method Assign(m: Names, names: seq<string>, cert: Certificate) returns (r: Names)
    ensures r == AssignAll(m, names, cert)
  {
    r := m;
    for i := 0 to |names|
      invariant forall k :: k in r <==> k in m || k in names[..i]
      invariant forall k | k in r :: r[k] == if k in names[..i] then cert else m[k]
    {
      assert names[..i + 1] == names[..i] + [names[i]];
      r := r[names[i] := cert];
    }
    assert names[..|names|] == names;
  }

  lemma {:induction false} AssignNone(m: Names)
    ensures forall cert :: AssignAll(m, [], cert) == m
  {
  }

  /** Goes backwards, so that earlier certificates overwrite later ones. */
  method BuildNamedCertificates(ps: Parsers, cs: seq<SNICert>) returns (r: Option<Names>)
    ensures r == if AllParse(ps, cs) then Some(NamesOf(ps, cs)) else None
  {
    var nameToCertificate: Names, byNameExplicit: Names := map[], map[];
    var i := |cs|;
    while i > 0
      invariant 0 <= i <= |cs|
      invariant forall j | i <= j < |cs| :: ps.keyPair(cs[j].certKey).Some?
      invariant AllParse(ps, cs) ==>
                  byNameExplicit == ExplicitFrom(ps, cs, i) && nameToCertificate == ImplicitFrom(ps, cs, i)
    {
      i := i - 1;
      AssignNone(nameToCertificate);
      var cert := ps.keyPair(cs[i].certKey);
      if cert.None? {
        return None;
      }
      var names := cs[i].sniNames;
      byNameExplicit := Assign(byNameExplicit, names, cert.value);
      if |names| == 0 {
        names := ps.certNames(cert.value);
        nameToCertificate := Assign(nameToCertificate, names, cert.value);
      }
    }
    nameToCertificate := Override(nameToCertificate, byNameExplicit);
    return Some(nameToCertificate);
  }

  /** Explicitly set names override, in any order. */
  method Override(m: Names, explicit: Names) returns (r: Names)
    ensures r == m + explicit
  {
    r := m;
    var todo := explicit.Keys;
    while todo != {}
      invariant todo <= explicit.Keys
      invariant r == m + map k | k in explicit && k !in todo :: explicit[k]
      decreases todo
    {
      var k :| k in todo;
      r := r[k := explicit[k]];
      todo := todo - {k};
    }
    assert (map k | k in explicit && k !in todo :: explicit[k]) == explicit;
  }

  /** Certificate `i` is the first from `from` on that names `name`. */
  ghost predicate FirstExplicit(cs: seq<SNICert>, from: nat, i: nat, name: string) {
    from <= i < |cs| && name in cs[i].sniNames && forall j | from <= j < i :: name !in cs[j].sniNames
  }

  ghost predicate FirstImplicit(ps: Parsers, cs: seq<SNICert>, from: nat, i: nat, name: string)
    requires AllParse(ps, cs)
  {
    && from <= i < |cs| && Carries(ps, cs[i], name)
    && forall j | from <= j < i :: !Carries(ps, cs[j], name)
  }

  /** The certificate has no explicit names, and carries this one. */
  ghost predicate Carries(ps: Parsers, c: SNICert, name: string)
    requires ps.keyPair(c.certKey).Some?
  {
    c.sniNames == [] && name in ps.certNames(ps.keyPair(c.certKey).value)
  }

  lemma {:induction false} ExplicitIsFirst(ps: Parsers, cs: seq<SNICert>, from: nat, name: string)
    requires AllParse(ps, cs) && from <= |cs|
    ensures name in ExplicitFrom(ps, cs, from) <==> exists i: nat :: FirstExplicit(cs, from, i, name)
    ensures forall i: nat | FirstExplicit(cs, from, i, name) ::
              name in ExplicitFrom(ps, cs, from) && ExplicitFrom(ps, cs, from)[name] == ps.keyPair(cs[i].certKey).value
    decreases |cs| - from
  {
    if from < |cs| {
      ExplicitIsFirst(ps, cs, from + 1, name);
      if name in cs[from].sniNames {
        assert FirstExplicit(cs, from, from, name);
      } else {
        forall i: nat | FirstExplicit(cs, from, i, name)
          ensures FirstExplicit(cs, from + 1, i, name)
        {
        }
        if name in ExplicitFrom(ps, cs, from) {
          var i: nat :| FirstExplicit(cs, from + 1, i, name);
          assert FirstExplicit(cs, from, i, name);
        }
      }
    }
  }

  lemma {:induction false} ImplicitIsFirst(ps: Parsers, cs: seq<SNICert>, from: nat, name: string)
    requires AllParse(ps, cs) && from <= |cs|
    ensures name in ImplicitFrom(ps, cs, from) <==> exists i: nat :: FirstImplicit(ps, cs, from, i, name)
    ensures forall i: nat | FirstImplicit(ps, cs, from, i, name) ::
              name in ImplicitFrom(ps, cs, from) && ImplicitFrom(ps, cs, from)[name] == ps.keyPair(cs[i].certKey).value
    decreases |cs| - from
  {
    if from < |cs| {
      ImplicitIsFirst(ps, cs, from + 1, name);
      if Carries(ps, cs[from], name) {
        assert FirstImplicit(ps, cs, from, from, name);
      } else {
        forall i: nat | FirstImplicit(ps, cs, from, i, name)
          ensures FirstImplicit(ps, cs, from + 1, i, name)
        {
        }
        if name in ImplicitFrom(ps, cs, from) {
          var i: nat :| FirstImplicit(ps, cs, from + 1, i, name);
          assert FirstImplicit(ps, cs, from, i, name);
        }
      }
    }
  }

  /** A name maps to the first certificate that names it explicitly or, if there is none,
      to the first one without explicit names that carries it; other names do not map. */
  lemma {:induction false} NamePrecedence(ps: Parsers, cs: seq<SNICert>, name: string)
    requires AllParse(ps, cs)
    ensures forall i: nat | FirstExplicit(cs, 0, i, name) ::
              name in NamesOf(ps, cs) && NamesOf(ps, cs)[name] == ps.keyPair(cs[i].certKey).value
    ensures (forall i: nat :: !FirstExplicit(cs, 0, i, name)) ==>
              forall i: nat | FirstImplicit(ps, cs, 0, i, name) ::
                name in NamesOf(ps, cs) && NamesOf(ps, cs)[name] == ps.keyPair(cs[i].certKey).value
    ensures name in NamesOf(ps, cs) <==>
            exists i: nat :: FirstExplicit(cs, 0, i, name) || FirstImplicit(ps, cs, 0, i, name)
  {
    ExplicitIsFirst(ps, cs, 0, name);
    ImplicitIsFirst(ps, cs, 0, name);
  }

  // ----- configurations

  datatype Config = Config(
    clientCAs: Option<CertPool>,
    certificates: seq<Certificate>,
    nameToCertificate: Names)

  /** Whether all of the content can be parsed. */
  predicate Buildable(ps: Parsers, c: Content) {
    && (c.clientCA != [] ==> ps.caPool(c.clientCA).Some?)
    && (!c.servingCert.Empty() ==>
          ps.keyPair(c.servingCert).Some? && ps.validServing(ps.keyPair(c.servingCert).value))
    && AllParse(ps, c.sniCerts)
  }

  function ClientCAs(ps: Parsers, base: Config, c: Content): Option<CertPool> {
    if c.clientCA == [] then base.clientCAs else ps.caPool(c.clientCA)
  }

  /** The certificates that come before the named ones. */
  function DefaultCertificates(ps: Parsers, base: Config, c: Content): seq<Certificate>
    requires Buildable(ps, c)
  {
    if c.servingCert.Empty() then base.certificates else [ps.keyPair(c.servingCert).value]
  }

  ghost predicate Enumerates(keys: seq<string>, s: set<string>) {
    && (forall k :: k in keys <==> k in s)
    && (forall i, j | 0 <= i < j < |keys| :: keys[i] != keys[j])
  }

  ghost predicate CertificatesFor(names: Names, keys: seq<string>, certs: seq<Certificate>) {
    && Enumerates(keys, names.Keys)
    && |certs| == |keys|
    && forall i | 0 <= i < |keys| :: keys[i] in names && certs[i] == names[keys[i]]
  }

  /** The certificates hold one for each name, in some order of the names. */
  ghost predicate OnePerName(names: Names, certs: seq<Certificate>) {
    exists keys :: CertificatesFor(names, keys, certs)
  }

  /** The configuration is what the content stands for over the base configuration. */
  ghost predicate IsBuild(ps: Parsers, base: Config, c: Content, config: Config) {
    && Buildable(ps, c)
    && config.clientCAs == ClientCAs(ps, base, c)
    && config.nameToCertificate == (if c.sniCerts == [] then base.nameToCertificate else NamesOf(ps, c.sniCerts))
    && var default := DefaultCertificates(ps, base, c);
    && default <= config.certificates
    && var named := config.certificates[|default|..];
    && if c.sniCerts == [] then named == [] else OnePerName(NamesOf(ps, c.sniCerts), named)
  }

  /** What can be built: whatever is not empty parses. */
  lemma {:induction false} BuildableExactly(ps: Parsers, c: Content)
    ensures Buildable(ps, c) <==>
            && (c.clientCA != [] ==> ps.caPool(c.clientCA).Some?)
            && (c.servingCert.cert != [] && c.servingCert.key != [] ==>
                  && ps.keyPair(c.servingCert).Some?
                  && ps.validServing(ps.keyPair(c.servingCert).value))
            && forall i | 0 <= i < |c.sniCerts| :: ps.keyPair(c.sniCerts[i].certKey).Some?
  {
  }

  /** What is built: client CAs and certificates are replaced by those of the content if it
      has any, and one certificate for each name follows. */
  lemma {:induction false} BuildExactly(ps: Parsers, base: Config, c: Content, config: Config)
    requires IsBuild(ps, base, c, config)
    ensures c.clientCA == [] ==> config.clientCAs == base.clientCAs
    ensures c.clientCA != [] ==> config.clientCAs == ps.caPool(c.clientCA)
    ensures c.sniCerts == [] ==> config.nameToCertificate == base.nameToCertificate
    ensures c.sniCerts != [] ==> config.nameToCertificate == NamesOf(ps, c.sniCerts)
    ensures c.servingCert.cert == [] || c.servingCert.key == [] ==>
              Follow(base.certificates, c.sniCerts != [], config)
    ensures c.servingCert.cert != [] && c.servingCert.key != [] ==>
              Follow([ps.keyPair(c.servingCert).value], c.sniCerts != [], config)
  {
  }

  /** These certificates, followed by those of the names or by none. */
  ghost predicate Follow(first: seq<Certificate>, named: bool, config: Config) {
    && first <= config.certificates
    && if named then OnePerName(config.nameToCertificate, config.certificates[|first|..])
       else config.certificates == first
  }

  lemma {:induction false} OnePerNameSize(names: Names, certs: seq<Certificate>)
    requires OnePerName(names, certs)
    ensures |certs| == |names.Keys|
  {
    var keys :| CertificatesFor(names, keys, certs);
    EnumeratedSize(keys, names.Keys);
  }

  lemma {:induction false} EnumeratedSize(keys: seq<string>, s: set<string>)
    requires Enumerates(keys, s)
    ensures |keys| == |s|
  {
    if keys == [] {
      assert s == {};
    } else {
      var n := |keys| - 1;
      var k := keys[n];
      assert Enumerates(keys[..n], s - {k}) by {
        forall x
          ensures x in keys[..n] <==> x in s - {k}
        {
          if x in s - {k} {
            var i :| 0 <= i < |keys| && keys[i] == x;
            assert keys[..n][i] == x;
          }
        }
      }
      assert k in s;
      EnumeratedSize(keys[..n], s - {k});
    }
  }

  /** The names for a certificate. */
  ghost function NamesFor(names: Names, cert: Certificate): set<string> {
    set n | n in names && names[n] == cert
  }

  /** Those among the given ones. */
  ghost function Among(names: Names, keys: seq<string>, cert: Certificate): set<string> {
    if keys == [] then {}
    else
      var k := keys[|keys| - 1];
      Among(names, keys[..|keys| - 1], cert) + if k in NamesFor(names, cert) then {k} else {}
  }

  lemma {:induction false} AmongExactly(names: Names, keys: seq<string>, cert: Certificate, x: string)
    ensures x in Among(names, keys, cert) <==> x in keys && x in NamesFor(names, cert)
  {
    if keys != [] {
      var n := |keys| - 1;
      AmongExactly(names, keys[..n], cert, x);
      assert keys == keys[..n] + [keys[n]];
    }
  }

  lemma {:induction false} KeysAsOften(names: Names, keys: seq<string>, certs: seq<Certificate>, cert: Certificate)
    requires |certs| == |keys| && (forall i, j | 0 <= i < j < |keys| :: keys[i] != keys[j])
    requires forall i | 0 <= i < |keys| :: keys[i] in names && certs[i] == names[keys[i]]
    ensures multiset(certs)[cert] == |Among(names, keys, cert)|
  {
    if keys != [] {
      var n := |keys| - 1;
      KeysAsOften(names, keys[..n], certs[..n], cert);
      assert certs == certs[..n] + [certs[n]];
      AmongExactly(names, keys[..n], cert, keys[n]);
      assert keys[n] !in keys[..n];
    }
  }

  /** A certificate follows as often as there are names for it. */
  lemma {:induction false} NamedAsOften(names: Names, certs: seq<Certificate>, cert: Certificate)
    requires OnePerName(names, certs)
    ensures multiset(certs)[cert] == |set n | n in names && names[n] == cert|
  {
    var keys :| CertificatesFor(names, keys, certs);
    KeysAsOften(names, keys, certs, cert);
    AmongAll(names, keys, cert);
  }

  lemma {:induction false} AmongAll(names: Names, keys: seq<string>, cert: Certificate)
    requires Enumerates(keys, names.Keys)
    ensures Among(names, keys, cert) == NamesFor(names, cert)
  {
    forall x
      ensures x in Among(names, keys, cert) <==> x in NamesFor(names, cert)
    {
      AmongExactly(names, keys, cert, x);
      assert x in keys <==> x in names.Keys;
    }
  }

  /** The certificates of all names, in whatever order the map is walked. */
  method AllNamed(names: Names) returns (certs: seq<Certificate>)
    ensures OnePerName(names, certs)
  {
    certs := [];
    ghost var keys: seq<string> := [];
    var todo := names.Keys;
    while todo != {}
      invariant todo <= names.Keys
      invariant Enumerates(keys, names.Keys - todo)
      invariant |certs| == |keys|
      invariant forall i | 0 <= i < |keys| :: keys[i] in names && certs[i] == names[keys[i]]
      decreases todo
    {
      var k :| k in todo;
      EnumeratesAppend(keys, names.Keys - todo, k);
      assert names.Keys - (todo - {k}) == names.Keys - todo + {k};
      certs, keys, todo := certs + [names[k]], keys + [k], todo - {k};
    }
    assert names.Keys - todo == names.Keys;
    assert CertificatesFor(names, keys, certs);
  }

  lemma {:induction false} EnumeratesAppend(keys: seq<string>, s: set<string>, k: string)
    requires Enumerates(keys, s) && k !in s
    ensures Enumerates(keys + [k], s + {k})
  {
    forall i | 0 <= i < |keys|
      ensures keys[i] != k
    {
      assert keys[i] in keys;
    }
  }

  // ----- the controller

  predicate Good(ps: Parsers, p: Providers) {
    ContentOf(p).Some? && Buildable(ps, ContentOf(p).value)
  }

  /** What is served after a sync. */
  function Sync(ps: Parsers, served: Option<Content>, p: Providers): Option<Content> {
    if Good(ps, p) then ContentOf(p) else served
  }

  class Controller {
    const ps: Parsers
    const base: Config
    var served: Option<Content>
    var config: Option<Config>

    /** What the providers offered at each sync. */
    ghost var history: seq<Providers>

    /** The recorded content is the last good one, and the configuration is its build. */
    ghost predicate Valid()
      reads this
    {
      && served == Served(ps, history)
      && if served.None? then config.None? else config.Some? && IsBuild(ps, base, served.value, config.value)
    }

    constructor (ps: Parsers, base: Config)
      ensures Valid() && history == [] && this.ps == ps && this.base == base
    {
      this.ps, this.base := ps, base;
      served, config, history := None, None, [];
    }

    method SyncCerts(p: Providers) returns (ok: bool)
      requires Valid()
      modifies this
      ensures Valid() && history == old(history) + [p]
      ensures ok <==> ContentOf(p).Some? && Buildable(ps, ContentOf(p).value)
      ensures served == if ok then ContentOf(p) else old(served)
      ensures !ok || ContentOf(p) == old(served) ==> served == old(served) && config == old(config)
    {
      assert (history + [p])[..|history|] == history;
      history := history + [p];
      var content := NewTLSContent(p);
      if content.None? {
        return false;
      }
      var same := ContentEqual(content, served);
      if same {
        return true;
      }
      var next := Build(content.value);
      if next.None? {
        return false;
      }
      config := next;
      served := content;
      return true;
    }

    method Build(c: Content) returns (r: Option<Config>)
      ensures r.Some? <==> Buildable(ps, c)
      ensures r.Some? ==> IsBuild(ps, base, c, r.value)
    {
      var config := base;
      if |c.clientCA| > 0 {
        var pool := ps.caPool(c.clientCA);
        if pool.None? {
          return None;
        }
        config := config.(clientCAs := pool);
      }
      if |c.servingCert.cert| > 0 && |c.servingCert.key| > 0 {
        var cert := ps.keyPair(c.servingCert);
        if cert.None? || !ps.validServing(cert.value) {
          return None;
        }
        config := config.(certificates := [cert.value]);
      }
      if |c.sniCerts| > 0 {
        var names := BuildNamedCertificates(ps, c.sniCerts);
        if names.None? {
          return None;
        }
        config := config.(nameToCertificate := names.value);
        var named := AllNamed(names.value);
        ghost var default := config.certificates;
        config := config.(certificates := config.certificates + named);
        assert config.certificates[|default|..] == named;
      }
      return Some(config);
    }
  }

  // ----- whole runs

  function Served(ps: Parsers, history: seq<Providers>): Option<Content> {
    if history == [] then None else Sync(ps, Served(ps, history[..|history| - 1]), history[|history| - 1])
  }

  /** Reading `i` of the providers is the last one that could be served. */
  ghost predicate LastGood(ps: Parsers, history: seq<Providers>, i: nat) {
    i < |history| && Good(ps, history[i]) && forall j | i < j < |history| :: !Good(ps, history[j])
  }

  lemma {:induction false} NothingGood(ps: Parsers, history: seq<Providers>)
    requires forall i | 0 <= i < |history| :: !Good(ps, history[i])
    ensures Served(ps, history).None?
  {
    if history != [] {
      NothingGood(ps, history[..|history| - 1]);
    }
  }

  /** After any run of syncs the controller serves the last content that was complete and
      could be parsed, whatever failed before and after it. */
  lemma {:induction false} ServesLastGood(ps: Parsers, history: seq<Providers>, i: nat)
    requires LastGood(ps, history, i)
    ensures Served(ps, history) == ContentOf(history[i])
  {
    var n := |history| - 1;
    if i < n {
      assert LastGood(ps, history[..n], i);
      ServesLastGood(ps, history[..n], i);
    }
  }
}
