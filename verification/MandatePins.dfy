/** The ceiling a mandate puts on the apps that log in under it (fakts/base_models.py): which
    manifests a pin admits, and which pins may be issued under it. */
module MandatePins {
  import opened Rows

  datatype Requirement = Requirement(key: string, service: string)

  datatype Manifest = Manifest(
    identifier: string,
    version: string,
    scopes: seq<string>,
    requirements: seq<Requirement>,
    device: Option<string>)

  datatype Pin = Pin(
    identifier: Option<string>,
    version: Option<string>,
    scopes: Option<seq<string>>,
    requirements: Option<seq<Requirement>>,
    device: Option<string>)

  /** Why a manifest is not covered, or a pin exceeds the issuer's. */
  datatype Mismatch =
    | Identifier
    | Version
    | Device
    | ScopesUnpinned
    | Scopes(extraScopes: set<string>)
    | RequirementsUnpinned
    | Requirements(extraRequirements: set<Requirement>)

  const BASE_OIDC_SCOPES := ["openid", "profile", "email"]

  function Services(requirements: seq<Requirement>): set<string> { set r | r in requirements :: r.service }

  function ExtraScopes(asked: seq<string>, allowed: seq<string>): set<string> {
    set s | s in asked && s !in allowed && s !in BASE_OIDC_SCOPES
  }

  function ExtraRequirements(asked: seq<Requirement>, allowed: seq<Requirement>): set<Requirement> {
    set r | r in asked && r.service !in Services(allowed)
  }

  /** `check`: the first reason the pin does not cover the manifest. */
  function Check(pin: Pin, m: Manifest): Option<Mismatch> {
    if pin.identifier.Some? && m.identifier != pin.identifier.value then Some(Identifier)
    else if pin.version.Some? && m.version != pin.version.value then Some(Version)
    else if pin.device.Some? && m.device != pin.device then Some(Device)
    else if pin.scopes.Some? && ExtraScopes(m.scopes, pin.scopes.value) != {}
    then Some(Scopes(ExtraScopes(m.scopes, pin.scopes.value)))
    else if pin.requirements.Some? && ExtraRequirements(m.requirements, pin.requirements.value) != {}
    then Some(Requirements(ExtraRequirements(m.requirements, pin.requirements.value)))
    else None
  }

  predicate Admits(pin: Pin, m: Manifest) { Check(pin, m).None? }

  /** `assert_within`: the first reason the pin exceeds the ceiling. */
  function AssertWithin(pin: Pin, ceiling: Pin): Option<Mismatch> {
    if ceiling.identifier.Some? && pin.identifier != ceiling.identifier then Some(Identifier)
    else if ceiling.version.Some? && pin.version != ceiling.version then Some(Version)
    else if ceiling.device.Some? && pin.device != ceiling.device then Some(Device)
    else if ceiling.scopes.Some? && pin.scopes.None? then Some(ScopesUnpinned)
    else if ceiling.scopes.Some? && ExtraScopes(pin.scopes.value, ceiling.scopes.value) != {}
    then Some(Scopes(ExtraScopes(pin.scopes.value, ceiling.scopes.value)))
    else if ceiling.requirements.Some? && pin.requirements.None? then Some(RequirementsUnpinned)
    else if ceiling.requirements.Some? && ExtraRequirements(pin.requirements.value, ceiling.requirements.value) != {}
    then Some(Requirements(ExtraRequirements(pin.requirements.value, ceiling.requirements.value)))
    else None
  }

  /** What a pin admits, by the lists of the manifest and of the pin: the base scopes need not be named,
      and a requirement counts by its service. */
  lemma AdmitsExactly(pin: Pin, m: Manifest)
    ensures Admits(pin, m) <==>
      && (pin.identifier == None || pin.identifier == Some(m.identifier))
      && (pin.version == None || pin.version == Some(m.version))
      && (pin.device == None || pin.device == m.device)
      && (pin.scopes.Some? ==>
            forall s :: s in m.scopes ==> s in pin.scopes.value || s == "openid" || s == "profile" || s == "email")
      && (pin.requirements.Some? ==>
            forall r :: r in m.requirements ==> exists q :: q in pin.requirements.value && q.service == r.service)
  {
    if pin.scopes.Some? { NoExtraScopes(m.scopes, pin.scopes.value); }
    if pin.requirements.Some? { NoExtraRequirements(m.requirements, pin.requirements.value); }
  }

  lemma NoExtraScopes(asked: seq<string>, allowed: seq<string>)
    ensures ExtraScopes(asked, allowed) == {} <==>
              forall s :: s in asked ==> s in allowed || s == "openid" || s == "profile" || s == "email"
  {
    assert BASE_OIDC_SCOPES[0] == "openid" && BASE_OIDC_SCOPES[1] == "profile" && BASE_OIDC_SCOPES[2] == "email";
    if ExtraScopes(asked, allowed) == {} {
      forall s | s in asked ensures s in allowed || s in BASE_OIDC_SCOPES { assert s !in ExtraScopes(asked, allowed); }
    } else {
      var s :| s in ExtraScopes(asked, allowed);
      assert s in asked;
    }
  }

  lemma NoExtraRequirements(asked: seq<Requirement>, allowed: seq<Requirement>)
    ensures ExtraRequirements(asked, allowed) == {} <==>
              forall r :: r in asked ==> exists q :: q in allowed && q.service == r.service
  {
    if ExtraRequirements(asked, allowed) == {} {
      forall r | r in asked ensures exists q :: q in allowed && q.service == r.service {
        assert r !in ExtraRequirements(asked, allowed);
      }
    } else {
      var r :| r in ExtraRequirements(asked, allowed);
      assert r in asked && r.service !in Services(allowed);
    }
  }

  /** The reason given is the first that holds, with exactly what is too much. */
  lemma ReasonIsFirst(pin: Pin, m: Manifest)
    ensures var reason := Check(pin, m);
            && (reason == Some(Identifier) <==> pin.identifier.Some? && pin.identifier.value != m.identifier)
            && (reason == Some(Version) ==> pin.version.Some? && pin.version.value != m.version)
            && (reason == Some(Device) ==> pin.device.Some? && pin.device != m.device)
            && (reason.Some? && reason.value.Scopes? ==>
                  forall s :: s in reason.value.extraScopes <==>
                    s in m.scopes && s !in pin.scopes.value && s != "openid" && s != "profile" && s != "email")
            && (reason.Some? && reason.value.Requirements? ==>
                  forall r :: r in reason.value.extraRequirements <==>
                    r in m.requirements && forall q :: q in pin.requirements.value ==> q.service != r.service)
  {
    assert BASE_OIDC_SCOPES[0] == "openid" && BASE_OIDC_SCOPES[1] == "profile" && BASE_OIDC_SCOPES[2] == "email";
  }

  predicate Within(pin: Pin, ceiling: Pin) { AssertWithin(pin, ceiling).None? }

  // --- the syntactic test is semantic inclusion ---------------------------------------------

  lemma ScopesCompose(a: seq<string>, b: seq<string>, c: seq<string>)
    requires ExtraScopes(a, b) == {} && ExtraScopes(b, c) == {}
    ensures ExtraScopes(a, c) == {}
  {
    forall s | s in a ensures s in c || s in BASE_OIDC_SCOPES {
      assert s !in ExtraScopes(a, b) && s !in ExtraScopes(b, c);
    }
  }

  lemma RequirementsCompose(a: seq<Requirement>, b: seq<Requirement>, c: seq<Requirement>)
    requires ExtraRequirements(a, b) == {} && ExtraRequirements(b, c) == {}
    ensures ExtraRequirements(a, c) == {}
  {
    forall r | r in a ensures r.service in Services(c) {
      assert r !in ExtraRequirements(a, b);
      var other :| other in b && other.service == r.service;
      assert other !in ExtraRequirements(b, c);
    }
  }

  /** Every manifest the pin admits, the ceiling admits. */
  lemma WithinIsSound(p: Pin, q: Pin, m: Manifest)
    requires Within(p, q) && Admits(p, m)
    ensures Admits(q, m)
  {
    if q.scopes.Some? { ScopesCompose(m.scopes, p.scopes.value, q.scopes.value); }
    if q.requirements.Some? { RequirementsCompose(m.requirements, p.requirements.value, q.requirements.value); }
  }

  /** The least a manifest can ask for that the pin admits. */
  function Modest(pin: Pin, identifier: string, version: string): Manifest {
    Manifest(if pin.identifier.Some? then pin.identifier.value else identifier,
             if pin.version.Some? then pin.version.value else version, [], [], pin.device)
  }

  function LongerThanAll(names: seq<string>): (s: string)
    ensures forall n :: n in names ==> |n| < |s|
  {
    if names == [] then "x" else
      var rest := LongerThanAll(names[1..]);
      assert forall n :: n in names ==> n == names[0] || n in names[1..];
      if |names[0]| < |rest| then rest else names[0] + "x"
  }

  /** A manifest the pin admits and the ceiling does not, when the pin is not within it. */
  function Escape(p: Pin, q: Pin): Manifest
    requires !Within(p, q)
  {
    match AssertWithin(p, q).value
    case Identifier => Modest(p, q.identifier.value + "x", "")
    case Version => Modest(p, if q.identifier.Some? then q.identifier.value else "", q.version.value + "x")
    case Device => Modest(p, "", "")
    case ScopesUnpinned => Modest(p, "", "").(scopes := [LongerThanAll(q.scopes.value + BASE_OIDC_SCOPES)])
    case Scopes(extra) => Modest(p, "", "").(scopes := p.scopes.value)
    case RequirementsUnpinned =>
      Modest(p, "", "").(requirements := [Requirement("", LongerThanAll(ServiceNames(q.requirements.value)))])
    case Requirements(extra) => Modest(p, "", "").(requirements := p.requirements.value)
  }

  function ServiceNames(requirements: seq<Requirement>): (names: seq<string>)
    ensures forall r :: r in requirements ==> r.service in names
  {
    if requirements == [] then [] else
      assert forall r :: r in requirements ==> r == requirements[0] || r in requirements[1..];
      [requirements[0].service] + ServiceNames(requirements[1..])
  }

  lemma EscapeEscapes(p: Pin, q: Pin)
    requires !Within(p, q)
    ensures Admits(p, Escape(p, q)) && !Admits(q, Escape(p, q))
  {
    var m := Escape(p, q);
    match AssertWithin(p, q).value
    case ScopesUnpinned =>
      assert LongerThanAll(q.scopes.value + BASE_OIDC_SCOPES) in ExtraScopes(m.scopes, q.scopes.value);
    case RequirementsUnpinned =>
      var r := m.requirements[0];
      assert forall s :: s in Services(q.requirements.value) ==> |s| < |r.service|;
      assert r in ExtraRequirements(m.requirements, q.requirements.value);
    case _ =>
  }

  /** The test is exactly inclusion over all manifests. */
  lemma WithinIsInclusion(p: Pin, q: Pin)
    ensures Within(p, q) <==> forall m :: Admits(p, m) ==> Admits(q, m)
  {
    if Within(p, q) {
      forall m | Admits(p, m) ensures Admits(q, m) { WithinIsSound(p, q, m); }
    } else {
      EscapeEscapes(p, q);
    }
  }

  // --- issuing chains -----------------------------------------------------------------------

  /** Each pin was issued within the one before it. */
  ghost predicate IssuingChain(pins: seq<Pin>) {
    forall i :: 0 < i < |pins| ==> Within(pins[i], pins[i - 1])
  }

  /** Along an issuing chain of any length nobody is admitted whom the first mandate, or any in
      between, would refuse. */
  lemma {:induction false} ChainsOnlyNarrow(pins: seq<Pin>, i: nat, j: nat)
    requires IssuingChain(pins) && i <= j < |pins|
    ensures Within(pins[j], pins[i])
    decreases j
  {
    if i == j {
      WithinIsInclusion(pins[i], pins[i]);
    } else {
      ChainsOnlyNarrow(pins, i, j - 1);
      WithinIsInclusion(pins[j - 1], pins[i]);
      WithinIsInclusion(pins[j], pins[j - 1]);
      WithinIsInclusion(pins[j], pins[i]);
    }
  }

  // --- pins made from manifests and from pins -----------------------------------------------

  /** `from_manifest`; the scopes are a sorted list of the manifest's. */
  function FromManifest(m: Manifest, version: bool, device: bool): Pin {
    Pin(
      Some(m.identifier),
      if version then Some(m.version) else None,
      Some(m.scopes),
      Some(m.requirements),
      if device then m.device else None)
  }

  /** The pin of a manifest admits it and is the least that does: it is within a ceiling exactly
      when the ceiling admits the manifest and pins nothing the new pin leaves open. */
  lemma FromManifestIsLeast(m: Manifest, version: bool, device: bool, q: Pin)
    ensures Admits(FromManifest(m, version, device), m)
    ensures Within(FromManifest(m, version, device), q) <==>
            Admits(q, m) && (version || q.version.None?) && (device || q.device.None?)
  {
    var p := FromManifest(m, version, device);
    forall r | r in m.requirements ensures r.service in Services(m.requirements) {}
    assert ExtraScopes(m.scopes, m.scopes) == {} && ExtraRequirements(m.requirements, m.requirements) == {};
  }

  function NarrowedToDevice(pin: Pin, device: string): Pin { pin.(device := Some(device)) }

  function FixedTo(pin: Pin, identifier: string): Pin { pin.(identifier := Some(identifier)) }

  /** Narrowing stays within the pin exactly when the pin leaves the device open or names the same
      one, and then admits exactly the pin's manifests for that device. */
  lemma NarrowingToDevice(p: Pin, device: string)
    ensures Within(NarrowedToDevice(p, device), p) <==> p.device == None || p.device == Some(device)
    ensures Within(NarrowedToDevice(p, device), p) <==> forall m ::
            Admits(NarrowedToDevice(p, device), m) <==> Admits(p, m) && m.device == Some(device)
  {
    var narrow := NarrowedToDevice(p, device);
    WithinIsInclusion(p, p);
    WithinIsInclusion(narrow, p);
    assert Within(narrow, p) <==> p.device == None || p.device == Some(device);
    if Within(narrow, p) {
      forall m ensures Admits(narrow, m) <==> Admits(p, m) && m.device == Some(device) {}
    }
  }

  lemma FixingTheIdentifier(p: Pin, identifier: string)
    ensures Within(FixedTo(p, identifier), p) <==> p.identifier == None || p.identifier == Some(identifier)
    ensures Within(FixedTo(p, identifier), p) <==> forall m ::
            Admits(FixedTo(p, identifier), m) <==> Admits(p, m) && m.identifier == identifier
  {
    var fixed := FixedTo(p, identifier);
    WithinIsInclusion(p, p);
    WithinIsInclusion(fixed, p);
    assert Within(fixed, p) <==> p.identifier == None || p.identifier == Some(identifier);
    if Within(fixed, p) {
      forall m ensures Admits(fixed, m) <==> Admits(p, m) && m.identifier == identifier {}
    }
  }
}
