/**
 Creation and renewal of the certificates of a cluster, and their validity over any run of passes.

 Instants are in nanoseconds; what is written to a certificate is cut down to whole seconds.
 */
module Certificates {
  import opened Names

  const SECOND := 1_000_000_000
  const FIVE_MINUTES := 300 * SECOND
  const DAY := 86_400 * SECOND
  const DEFAULT_DURATION_DAYS := 90
  const DEFAULT_THRESHOLD_DAYS := 7

  /** Private keys are only compared. */
  type Key = nat

  datatype Certificate = Certificate(
    notBefore: int,
    notAfter: int,
    publicKey: Key,
    signedBy: Key,
    dnsNames: seq<string>)
  {
    predicate IsValidAt(t: int) { notBefore <= t <= notAfter }
  }

  datatype Pair = Pair(privateKey: Key, certificate: Certificate)

  /** The operator configuration, in days; anything not positive stands for the default. */
  datatype Config = Config(certificateDuration: int, expiringCheckThreshold: int)
  {
    function Duration(): (d: int)
      ensures d >= DAY
    {
      (if certificateDuration <= 0 then DEFAULT_DURATION_DAYS else certificateDuration) * DAY
    }

    function Threshold(): (d: int)
      ensures d >= DAY
    {
      (if expiringCheckThreshold <= 0 then DEFAULT_THRESHOLD_DAYS else expiringCheckThreshold) * DAY
    }
  }

  function WholeSeconds(t: int): int { t - t % SECOND }

  function Issue(config: Config, now: int, publicKey: Key, signedBy: Key, names: seq<string>): Certificate {
    Certificate(WholeSeconds(now - FIVE_MINUTES), WholeSeconds(now - FIVE_MINUTES + config.Duration()),
                publicKey, signedBy, names)
  }

  predicate IsExpiring(config: Config, c: Certificate, now: int) {
    now < c.notBefore || now + config.Threshold() > c.notAfter
  }

  // ---- Names ----

  predicate SortedNames(s: seq<string>) {
    forall i, j :: 0 <= i < j < |s| ==> !Before(s[j], s[i])
  }

  function InsertName(s: seq<string>, x: string): (r: seq<string>)
    ensures multiset(r) == multiset(s) + multiset{x}
  {
    if s == [] || !Before(s[0], x) then [x] + s
    else
      assert s == [s[0]] + s[1..];
      [s[0]] + InsertName(s[1..], x)
  }

  /** The sorted form of a list of names. */
  function SortNames(s: seq<string>): (r: seq<string>)
    ensures multiset(r) == multiset(s)
  {
    if s == [] then []
    else
      assert s == s[..|s| - 1] + [s[|s| - 1]];
      InsertName(SortNames(s[..|s| - 1]), s[|s| - 1])
  }

  lemma {:induction false} InsertNameKeepsOrder(s: seq<string>, x: string)
    requires SortedNames(s)
    ensures SortedNames(InsertName(s, x))
  {
    if s != [] && Before(s[0], x) {
      InsertNameKeepsOrder(s[1..], x);
      BeforeIsAsymmetric(s[0], x);
      var rest := InsertName(s[1..], x);
      forall k | 0 <= k < |rest| ensures !Before(rest[k], s[0]) {
        assert rest[k] in multiset(rest);
        assert rest[k] == x || rest[k] in s[1..];
      }
    } else if s != [] {
      InsertedStaysSorted(s, x, 0);
      assert s[..0] + [x] + s[0..] == [x] + s;
    }
  }

  lemma {:induction false} SortNamesSorts(s: seq<string>)
    ensures SortedNames(SortNames(s))
  {
    if s != [] {
      SortNamesSorts(s[..|s| - 1]);
      InsertNameKeepsOrder(SortNames(s[..|s| - 1]), s[|s| - 1]);
    }
  }

  /** Sorts in place. */
  method SortStrings(a: array<string>)
    modifies a
    ensures a[..] == SortNames(old(a[..]))
  {
    var r := SortedCopy(a[..]);
    forall k | 0 <= k < a.Length {
      a[k] := r[k];
    }
    assert a[..] == r;
  }

  method SortedCopy(s: seq<string>) returns (r: seq<string>)
    ensures r == SortNames(s) && |r| == |s|
  {
    r := [];
    for k := 0 to |s|
      invariant SortedNames(r) && multiset(r) == multiset(s[..k])
    {
      var i := 0;
      while i < |r| && Before(r[i], s[k])
        invariant 0 <= i <= |r| && forall j :: 0 <= j < i ==> Before(r[j], s[k])
      {
        i := i + 1;
      }
      assert s[..k + 1] == s[..k] + [s[k]];
      assert r == r[..i] + r[i..];
      InsertedStaysSorted(r, s[k], i);
      r := r[..i] + [s[k]] + r[i..];
    }
    assert s[..|s|] == s;
    SortNamesSorts(s);
    SortedNamesAreUnique(r, SortNames(s));
    assert |r| == |multiset(r)| == |multiset(s)| == |s|;
  }

  lemma InsertedStaysSorted(r: seq<string>, x: string, i: nat)
    requires SortedNames(r) && i <= |r| && (forall j :: 0 <= j < i ==> Before(r[j], x))
    requires i < |r| ==> !Before(r[i], x)
    ensures SortedNames(r[..i] + [x] + r[i..])
  {
    var t := r[..i] + [x] + r[i..];
    forall j, k | 0 <= j < k < |t| ensures !Before(t[k], t[j]) {
      if j < i && k == i {
        BeforeIsAsymmetric(t[j], x);
      }
      if j == i && k - 1 > i && Before(t[k], x) {
        BeforeIsTotal(r[i], r[k - 1]);
        if Before(r[i], r[k - 1]) {
          BeforeIsTransitive(r[i], r[k - 1], x);
        }
      }
    }
  }

  lemma SameNamesSameHead(a: seq<string>, b: seq<string>)
    requires SortedNames(a) && SortedNames(b) && a != [] && b != [] && multiset(a) == multiset(b)
    ensures a[0] == b[0]
  {
    assert a[0] in multiset(b) && b[0] in multiset(a);
    var i :| 0 <= i < |b| && b[i] == a[0];
    var j :| 0 <= j < |a| && a[j] == b[0];
    BeforeIsTotal(a[0], b[0]);
  }

  /** Sorted lists are equal exactly when they hold the same names equally often. */
  lemma {:induction false} SortedNamesAreUnique(a: seq<string>, b: seq<string>)
    requires SortedNames(a) && SortedNames(b)
    ensures a == b <==> multiset(a) == multiset(b)
    decreases |a|
  {
    if multiset(a) == multiset(b) {
      assert |a| == |multiset(a)| == |multiset(b)| == |b|;
      if a != [] {
        SameNamesSameHead(a, b);
        assert a == [a[0]] + a[1..] && b == [b[0]] + b[1..];
        assert multiset(a[1..]) == multiset(a) - multiset{a[0]};
        assert multiset(b[1..]) == multiset(b) - multiset{b[0]};
        SortedNamesAreUnique(a[1..], b[1..]);
      }
    }
  }

  /** Compares names regardless of their order, and leaves the given ones sorted. */
  method DoAltDNSNamesMatch(c: Certificate, names: array<string>) returns (ok: bool)
    modifies names
    ensures ok <==> multiset(c.dnsNames) == multiset(old(names[..]))
    ensures names[..] == SortNames(old(names[..]))
  {
    var own := new string[|c.dnsNames|](i requires 0 <= i < |c.dnsNames| => c.dnsNames[i]);
    assert own[..] == c.dnsNames;
    SortNamesSorts(own[..]);
    SortNamesSorts(names[..]);
    SortedNamesAreUnique(SortNames(own[..]), SortNames(names[..]));
    SortStrings(own);
    SortStrings(names);
    ok := own[..] == names[..];
  }

  /** The names of a new server certificate: the given ones, and the hosts that are missing among them. */
  function ServerNames(names: seq<string>, hosts: seq<string>): seq<string>
    decreases |hosts|
  {
    if hosts == [] then names
    else ServerNames(if hosts[0] in names then names else names + [hosts[0]], hosts[1..])
  }

  // ---- Passes ----

  datatype Secrets = Secrets(ca: Option<Pair>, leaf: Option<Pair>)

  /** What a pass is given: its instant, the names asked for, the hosts of a new certificate, and new keys. */
  datatype Request = Request(now: int, names: seq<string>, hosts: seq<string>, newCaKey: Key, newLeafKey: Key)

  predicate LeafNeedsRenewal(config: Config, c: Certificate, r: Request) {
    IsExpiring(config, c, r.now) || multiset(c.dnsNames) != multiset(r.names)
  }

  function NextCa(config: Config, s: Secrets, r: Request): Pair {
    match s.ca
    case None => Pair(r.newCaKey, Issue(config, r.now, r.newCaKey, r.newCaKey, []))
    case Some(p) =>
      if IsExpiring(config, p.certificate, r.now)
      then p.(certificate := Issue(config, r.now, p.certificate.publicKey, p.privateKey, [])) else p
  }

  function NextLeaf(config: Config, s: Secrets, r: Request): Pair {
    var ca := NextCa(config, s, r);
    match s.leaf
    case None => Pair(r.newLeafKey, Issue(config, r.now, r.newLeafKey, ca.privateKey, ServerNames(r.names, r.hosts)))
    case Some(p) =>
      if LeafNeedsRenewal(config, p.certificate, r)
      then p.(certificate := Issue(config, r.now, p.certificate.publicKey, ca.privateKey, SortNames(r.names))) else p
  }

  function AfterPass(config: Config, s: Secrets, r: Request): Secrets {
    Secrets(Some(NextCa(config, s, r)), Some(NextLeaf(config, s, r)))
  }

  class PublicKeyInfrastructure {
    const config: Config
    var ca: Option<Pair>
    var leaf: Option<Pair>

    constructor (config: Config)
      ensures this.config == config && ca.None? && leaf.None?
    {
      this.config, ca, leaf := config, None, None;
    }

    method EnsureCASecret(r: Request)
      modifies `ca
      ensures ca == Some(NextCa(config, Secrets(old(ca), leaf), r))
    {
      match ca {
        case None =>
          ca := Some(Pair(r.newCaKey, Issue(config, r.now, r.newCaKey, r.newCaKey, [])));
        case Some(p) =>
          if IsExpiring(config, p.certificate, r.now) {
            ca := Some(p.(certificate := Issue(config, r.now, p.certificate.publicKey, p.privateKey, [])));
          }
      }
    }

    method EnsureLeafCertificate(r: Request)
      requires ca.Some?
      modifies `leaf
      ensures old(leaf).None? ==>
        leaf == Some(Pair(r.newLeafKey, Issue(config, r.now, r.newLeafKey, ca.value.privateKey,
                                              ServerNames(r.names, r.hosts))))
      ensures old(leaf).Some? ==> var p := old(leaf).value;
        leaf == Some(if LeafNeedsRenewal(config, p.certificate, r)
                     then p.(certificate := Issue(config, r.now, p.certificate.publicKey, ca.value.privateKey,
                                                  SortNames(r.names)))
                     else p)
    {
      match leaf {
        case None =>
          var names := r.names;
          for i := 0 to |r.hosts|
            invariant ServerNames(r.names, r.hosts) == ServerNames(names, r.hosts[i..])
          {
            if r.hosts[i] !in names {
              names := names + [r.hosts[i]];
            }
          }
          leaf := Some(Pair(r.newLeafKey, Issue(config, r.now, r.newLeafKey, ca.value.privateKey, names)));
        case Some(p) =>
          var expiring := IsExpiring(config, p.certificate, r.now);
          var names := new string[|r.names|](i requires 0 <= i < |r.names| => r.names[i]);
          assert names[..] == r.names;
          var matching := DoAltDNSNamesMatch(p.certificate, names);
          if !expiring && matching {
            return;
          }
          leaf := Some(p.(certificate :=
            Issue(config, r.now, p.certificate.publicKey, ca.value.privateKey, names[..])));
      }
    }

    method Setup(r: Request)
      modifies this
      ensures Secrets(ca, leaf) == AfterPass(config, old(Secrets(ca, leaf)), r)
    {
      EnsureCASecret(r);
      EnsureLeafCertificate(r);
    }
  }

  // ---- Continuous validity ----

  /** Passes are close enough: within the threshold, and within the life of a new certificate. */
  predicate OftenEnough(config: Config, interval: int) {
    0 <= interval <= config.Threshold() && interval + FIVE_MINUTES + (SECOND - 1) <= config.Duration()
  }

  /** What a pass at `now` may leave behind: a certificate it found good, or one it just issued. */
  predicate PassesInspection(config: Config, c: Certificate, now: int) {
    !IsExpiring(config, c, now) ||
    c == Issue(config, now, c.publicKey, c.signedBy, c.dnsNames)
  }

  /** A certificate that a pass leaves in place or issues is valid until the next pass is due. */
  lemma InspectedStaysValid(config: Config, c: Certificate, now: int, interval: int, t: int)
    requires OftenEnough(config, interval) && now <= t <= now + interval && PassesInspection(config, c, now)
    ensures c.IsValidAt(t)
  {
  }

  /** No longer interval would do. */
  lemma OftenEnoughExactly(config: Config, interval: nat)
    ensures OftenEnough(config, interval) <==>
            forall c, now :: PassesInspection(config, c, now) ==> c.IsValidAt(now + interval)
  {
    if OftenEnough(config, interval) {
      forall c, now | PassesInspection(config, c, now) ensures c.IsValidAt(now + interval) {
        InspectedStaysValid(config, c, now, interval, now + interval);
      }
    } else if interval > config.Threshold() {
      var c := Certificate(0, config.Threshold(), 0, 0, []);
      assert PassesInspection(config, c, 0) && !c.IsValidAt(0 + interval);
    } else {
      var now := FIVE_MINUTES + (SECOND - 1);
      var c := Issue(config, now, 0, 0, []);
      DurationIsWhole(config);
      assert PassesInspection(config, c, now) && !c.IsValidAt(now + interval);
    }
  }

  lemma DurationIsWhole(config: Config)
    ensures WholeSeconds(SECOND - 1 + config.Duration()) == config.Duration()
  {
    var days := config.Duration() / DAY;
    assert config.Duration() == days * DAY == (days * 86_400) * SECOND;
    assert (SECOND - 1 + (days * 86_400) * SECOND) % SECOND == SECOND - 1;
  }

  ghost predicate Run(config: Config, states: seq<Secrets>, passes: seq<Request>) {
    && |states| == |passes| + 1
    && forall i :: 0 <= i < |passes| ==> states[i + 1] == AfterPass(config, states[i], passes[i])
  }

  /**
   If passes are at most `interval` apart, both certificates are valid at every instant from the first pass
   on, whatever was stored before it.
   */
  lemma CertificatesStayValid(config: Config, states: seq<Secrets>, passes: seq<Request>, interval: int, i: nat, t: int)
    requires Run(config, states, passes) && OftenEnough(config, interval) && i < |passes|
    requires passes[i].now <= t
    requires t <= if i + 1 < |passes| then passes[i + 1].now else passes[i].now + interval
    requires i + 1 < |passes| ==> passes[i + 1].now <= passes[i].now + interval
    ensures states[i + 1].ca.Some? && states[i + 1].ca.value.certificate.IsValidAt(t)
    ensures states[i + 1].leaf.Some? && states[i + 1].leaf.value.certificate.IsValidAt(t)
  {
    var r, s := passes[i], states[i + 1];
    assert s == AfterPass(config, states[i], r);
    InspectedStaysValid(config, s.ca.value.certificate, r.now, interval, t);
    InspectedStaysValid(config, s.leaf.value.certificate, r.now, interval, t);
  }

  // ---- Chaining ----

  predicate Chains(s: Secrets) {
    s.ca.Some? && s.leaf.Some? && s.leaf.value.certificate.signedBy == s.ca.value.certificate.publicKey
  }

  predicate KeysMatch(s: Secrets) {
    (s.ca.Some? ==> s.ca.value.certificate.publicKey == s.ca.value.privateKey) &&
    (s.leaf.Some? ==> s.leaf.value.certificate.publicKey == s.leaf.value.privateKey)
  }

  /**
   After a pass the leaf is signed by the CA exactly when the pass issued it, or it was signed by the CA
   before and the CA was still there. Renewing the CA keeps its key and so the leaves it signed; a CA that
   was deleted is replaced without any check of the leaf, which then stays unusable until it is renewed.
   */
  lemma ChainAfterPassExactly(config: Config, s: Secrets, r: Request)
    requires KeysMatch(s) && (s.leaf.Some? ==> r.newCaKey != s.leaf.value.certificate.signedBy)
    ensures var s' := AfterPass(config, s, r);
      && KeysMatch(s')
      && (s.ca.Some? ==> s'.ca.value.privateKey == s.ca.value.privateKey)
      && (Chains(s') <==> s.leaf.None? || LeafNeedsRenewal(config, s.leaf.value.certificate, r) || Chains(s))
  {
  }

  lemma {:induction false} ChainIsKept(config: Config, states: seq<Secrets>, passes: seq<Request>, i: nat, j: nat)
    requires Run(config, states, passes) && i <= j < |states|
    requires KeysMatch(states[i]) && Chains(states[i])
    ensures KeysMatch(states[j]) && Chains(states[j])
    ensures states[j].ca.value.privateKey == states[i].ca.value.privateKey
    decreases j - i
  {
    if i < j {
      ChainIsKept(config, states, passes, i, j - 1);
    }
  }

  // ---- Quietness ----

  /** Two passes for the same names are enough for the leaf to carry them; after an earlier leaf, one is. */
  lemma NamesSettle(config: Config, s: Secrets, r: Request, r': Request)
    requires r'.names == r.names
    ensures multiset(NextLeaf(config, AfterPass(config, s, r), r').certificate.dnsNames) == multiset(r.names)
    ensures s.leaf.Some? ==> multiset(NextLeaf(config, s, r).certificate.dnsNames) == multiset(r.names)
  {
  }

  /** A renewed leaf is renewed again later exactly when it is about to expire or other names are asked for. */
  lemma RenewedAgainExactly(config: Config, s: Secrets, r: Request, r': Request)
    requires s.leaf.Some? && LeafNeedsRenewal(config, s.leaf.value.certificate, r) && r'.now >= r.now
    ensures var c := NextLeaf(config, s, r).certificate;
      LeafNeedsRenewal(config, c, r') <==>
      r'.now + config.Threshold() > WholeSeconds(r.now - FIVE_MINUTES + config.Duration()) ||
      multiset(r'.names) != multiset(r.names)
  {
  }

  /** The configured days count when they are positive, and 90 and 7 otherwise. */
  predicate InForce(configured: int, standard: int, days: int) {
    days == if configured > 0 then configured else standard
  }

  /** On which date a leaf that was renewed under the settings in force is renewed again. */
  lemma RenewalDateExactly(config: Config, s: Secrets, r: Request, r': Request, life: int, threshold: int)
    requires s.leaf.Some? && LeafNeedsRenewal(config, s.leaf.value.certificate, r)
    requires r'.now >= r.now && multiset(r'.names) == multiset(r.names)
    requires InForce(config.certificateDuration, 90, life) && InForce(config.expiringCheckThreshold, 7, threshold)
    ensures LeafNeedsRenewal(config, NextLeaf(config, s, r).certificate, r') <==>
      r'.now + threshold * DAY > WholeSeconds(r.now - FIVE_MINUTES + life * DAY)
  {
  }

  /** A certificate that is not renewed was valid, for at least the threshold, and carries the names asked for. */
  lemma KeptLeafExactly(config: Config, s: Secrets, r: Request, threshold: int)
    requires s.leaf.Some? && InForce(config.expiringCheckThreshold, 7, threshold)
    ensures var c := s.leaf.value.certificate;
      NextLeaf(config, s, r) == s.leaf.value && !LeafNeedsRenewal(config, c, r) <==>
      c.notBefore <= r.now <= c.notAfter - threshold * DAY && multiset(c.dnsNames) == multiset(r.names)
  {
  }

  /** A CA that is issued signs itself, under the key it had or a new one, and names no hosts. */
  lemma IssuedCaSignsItself(config: Config, s: Secrets, r: Request)
    requires KeysMatch(s) && (s.ca.Some? ==> IsExpiring(config, s.ca.value.certificate, r.now))
    ensures var ca := NextCa(config, s, r);
      && ca.privateKey == (if s.ca.Some? then s.ca.value.privateKey else r.newCaKey)
      && ca.certificate.signedBy == ca.certificate.publicKey == ca.privateKey && ca.certificate.dnsNames == []
      && ca.certificate.notBefore == WholeSeconds(r.now - FIVE_MINUTES)
  {
  }

  /** A new leaf carries the names asked for, followed by each of its hosts that is not among them, once. */
  lemma {:induction false} ServerNamesExactly(names: seq<string>, hosts: seq<string>)
    ensures var all := ServerNames(names, hosts);
      && names <= all && (forall n :: n in all <==> n in names || n in hosts)
      && forall i, j :: |names| <= i < |all| && 0 <= j < i ==> all[i] != all[j]
    decreases |hosts|
  {
    if hosts != [] {
      var more := if hosts[0] in names then names else names + [hosts[0]];
      ServerNamesExactly(more, hosts[1..]);
      assert forall n :: n in hosts <==> n == hosts[0] || n in hosts[1..];
    }
  }

  /** Settings under which every pass renews everything again: the threshold reaches the life of a new certificate. */
  lemma RenewalLoopsExactly(config: Config, now: int, key: Key, signer: Key, names: seq<string>)
    ensures (forall t :: t >= now ==> IsExpiring(config, Issue(config, now, key, signer, names), t)) <==>
            now + config.Threshold() > WholeSeconds(now - FIVE_MINUTES + config.Duration())
  {
    var c := Issue(config, now, key, signer, names);
    assert IsExpiring(config, c, now) <==> now + config.Threshold() > c.notAfter;
  }
}
