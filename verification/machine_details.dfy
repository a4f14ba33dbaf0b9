/** Machine self-identification: whether the process runs on an EC2 instance
    and, if so, its identity (instance id, derived machine id, region, IPs).
    The details are built once per process and kept in a static record.

    The metadata service is not called here: what it would answer (the
    hostname, the identity document, the public IP) arrives as a `Probe`, and
    each answer the program would have asked for is listed as a `Request`. */
module MachineDetails {
  import opened Wrappers
  import opened Php
  import Helpers

  /** The static details record: a PHP array with a fixed set of keys. */
  type Record = map<string, Scalar>

  const RecordKeys: set<string> := {"type", "id", "machineId", "instanceId", "region", "publicIp", "privateIp"}

  /** The record before anything is resolved: every field null. */
  const Blank: Record := map[
    "type" := Null, "id" := Null, "machineId" := Null, "instanceId" := Null,
    "region" := Null, "publicIp" := Null, "privateIp" := Null]

  /** The record holds exactly the fixed keys. */
  predicate WellFormed(r: Record) {
    r.Keys == RecordKeys
  }

  /** `$details[$key]`, null for a missing key. */
  function Field(r: Record, key: string): Scalar {
    if key in r then r[key] else Null
  }

  /** The identity document after `json_decode`: not an array (invalid JSON,
      a failed fetch, a scalar), or an array of named fields. */
  datatype Document = NotArray | Array(entries: map<string, Scalar>)

  /** What the metadata service would answer; `None` is a failed fetch. */
  datatype Probe = Probe(hostname: Option<string>, document: Document, publicIp: Option<string>)

  /** A request made to the metadata service. */
  datatype Request = HostnameRequest | DocumentRequest | PublicIpRequest

  /** The class's static state: whether the singleton exists, and the record. */
  datatype Process = Process(constructed: bool, details: Record)

  const Start: Process := Process(false, Blank)

  const InvalidDocument: string := "Invalid machine details from http://169.254.169.254. Assumption is this is not an EC2 instance."

  // ---------------------------------------------------------------------
  // determineMachineType

  /** "ec2" exactly when the hostname the metadata service reports contains
      "ec2"; a failed fetch reads as the empty string, hence "local". */
  function DetermineMachineType(hostname: Option<string>): (t: string)
    ensures t == "ec2" || t == "local"
    ensures t == "ec2" <==> hostname.Some? && exists i :: OccursAt(hostname.value, "ec2", i)
  {
    var h := if hostname.Some? then hostname.value else "";
    ContainsIffOccurs(h, "ec2");
    if Contains(h, "ec2") then "ec2" else "local"
  }

  /** The type the constructor dispatches on, and whether it asked the
      metadata service for the hostname to find it. */
  datatype TypeDecision = TypeDecision(machineType: string, detected: bool)

  /** A configured `MACHINE_TYPE` that is not empty (nor "0") overrides detection. */
  predicate TypeConfigured(env: map<string, string>) {
    "MACHINE_TYPE" in env && !Falsy(Str(env["MACHINE_TYPE"]))
  }

  function ResolveType(env: map<string, string>, hostname: Option<string>): (d: TypeDecision)
    ensures d.detected <==> !TypeConfigured(env)
    ensures TypeConfigured(env) ==> d.machineType == env["MACHINE_TYPE"]
    ensures !TypeConfigured(env) ==> d.machineType == DetermineMachineType(hostname)
  {
    var configured := Helpers.Config(env, "MACHINE_TYPE", Null);
    if configured.Null? || Falsy(configured) then TypeDecision(DetermineMachineType(hostname), true)
    else TypeDecision(configured.s, false)
  }

  // ---------------------------------------------------------------------
  // getLocalData and getEc2Data

  /** The constant record of a machine that is not on EC2. */
  const LocalData: map<string, Scalar> := map[
    "id" := Str("dev"), "machineId" := Str("dev"), "region" := Str("local"),
    "publicIp" := Str("127.0.0.1"), "privateIp" := Str("127.0.0.1")]

  /** `isset($data[$key])`. */
  predicate IsSetIn(data: map<string, Scalar>, key: string) {
    key in data && IsSet(data[key])
  }

  /** The document with `machineId` derived from `instanceId`, when that is set. */
  function WithMachineId(data: map<string, Scalar>): map<string, Scalar> {
    if IsSetIn(data, "instanceId") then
      data["machineId" := Str(Substr(AsString(data["instanceId"]), 2))]
    else data
  }

  /** The value the merge gives field `key`: from the document when set
      there, otherwise the record's current value. */
  function MergedField(details: Record, entries: map<string, Scalar>, key: string): Scalar
    requires key in details
  {
    if key == "machineId" && IsSetIn(entries, "instanceId") then Str(Substr(AsString(entries["instanceId"]), 2))
    else if IsSetIn(entries, key) then entries[key]
    else details[key]
  }

  /** `getEc2Data`: an empty or non-array document raises; otherwise every key
      of the current record takes the document's value when that is set, the
      machine id being the instance id without its first two characters. */
  function GetEc2Data(details: Record, doc: Document): (r: Result<Record, string>)
    ensures r.Failure? <==> doc.NotArray? || |doc.entries| == 0
    ensures r.Success? ==> r.value.Keys == details.Keys
    ensures r.Success? ==> forall k :: k in details ==> r.value[k] == MergedField(details, doc.entries, k)
  {
    if doc.NotArray? || |doc.entries| == 0 then Failure(InvalidDocument)
    else
      var data := WithMachineId(doc.entries);
      Success(map k | k in details :: if IsSetIn(data, k) then data[k] else details[k])
  }

  /** Merging the same document twice changes nothing the first merge did not. */
  lemma Ec2DataIdempotent(details: Record, doc: Document)
    requires doc.Array? && |doc.entries| > 0
    ensures GetEc2Data(details, doc).Success?
    ensures GetEc2Data(GetEc2Data(details, doc).value, doc) == GetEc2Data(details, doc)
  {
    var once := GetEc2Data(details, doc).value;
    var twice := GetEc2Data(once, doc).value;
    assert forall k :: k in once ==> twice[k] == once[k];
    assert twice == once;
  }

  /** Fields the document leaves unset keep their previous value, and keys
      the record does not have are never added. */
  lemma Ec2DataKeepsUnsetFields(details: Record, doc: Document, k: string)
    requires doc.Array? && |doc.entries| > 0
    requires k in details && !IsSetIn(doc.entries, k)
    requires k != "machineId" || !IsSetIn(doc.entries, "instanceId")
    ensures GetEc2Data(details, doc).Success? && GetEc2Data(details, doc).value[k] == details[k]
  {
  }

  // ---------------------------------------------------------------------
  // __construct, getInstance and getDetails

  /** The constructor's effect: the record it leaves behind (also when it
      throws), the details or the exception, and the requests it made. */
  datatype Construction = Construction(details: Record, result: Result<Record, string>, requests: seq<Request>)

  /** `__construct`: resolve the type, then merge the EC2 identity document
      or the constant local record into the static record. The type is
      written before the document is fetched, so it survives an exception. */
  function Construct(details: Record, env: map<string, string>, probe: Probe): (c: Construction)
    ensures HostnameRequest in c.requests <==> !TypeConfigured(env)
    ensures DocumentRequest in c.requests <==> ResolveType(env, probe.hostname).machineType == "ec2"
    ensures PublicIpRequest !in c.requests
    ensures c.result.Success? ==> c.result.value == c.details
    ensures c.result.Failure? ==> c.details == details["type" := Str("ec2")]
    ensures WellFormed(details) ==> WellFormed(c.details)
    ensures ResolveType(env, probe.hostname).machineType != "ec2" ==>
              c.result == Success(details["type" := Str("local")] + LocalData)
    ensures ResolveType(env, probe.hostname).machineType == "ec2" ==>
              var merge := GetEc2Data(details["type" := Str("ec2")], probe.document);
              && (c.result.Failure? <==> merge.Failure?)
              && (c.result.Success? ==> c.details == merge.value)
  {
    var decision := ResolveType(env, probe.hostname);
    var asked := if decision.detected then [HostnameRequest] else [];
    if decision.machineType == "ec2" then
      var typed := details["type" := Str("ec2")];
      match GetEc2Data(typed, probe.document)
      case Failure(e) => Construction(typed, Failure(e), asked + [DocumentRequest])
      case Success(out) =>
        var merged := typed + out;
        assert merged == out;
        Construction(merged, Success(merged), asked + [DocumentRequest])
    else
      var merged := details["type" := Str("local")] + LocalData;
      Construction(merged, Success(merged), asked)
  }

  /** What a call of `getDetails()` returns and leaves behind. */
  datatype Resolution = Resolution(process: Process, details: Result<Record, string>, requests: seq<Request>)

  /** `getDetails()`: constructs the singleton on the first call; once it
      exists, the stored record is returned and nothing is asked again. A
      constructor that throws leaves no singleton, so the next call retries. */
  function GetDetails(p: Process, env: map<string, string>, probe: Probe): (r: Resolution)
    ensures p.constructed ==> r == Resolution(p, Success(p.details), [])
    ensures r.details.Success? <==> r.process.constructed
    ensures r.details.Success? ==> r.details.value == r.process.details
    ensures |r.requests| <= 2
    ensures WellFormed(p.details) ==> WellFormed(r.process.details)
  {
    if p.constructed then Resolution(p, Success(p.details), [])
    else
      var c := Construct(p.details, env, probe);
      Resolution(Process(c.result.Success?, c.details), c.result, c.requests)
  }

  /** Once resolved, the details never change and are never fetched again,
      whatever the environment or the metadata service would now say. */
  lemma ResolvedOnce(p: Process, env: map<string, string>, probe: Probe, env': map<string, string>, probe': Probe)
    requires GetDetails(p, env, probe).details.Success?
    ensures var first := GetDetails(p, env, probe);
            GetDetails(first.process, env', probe') == Resolution(first.process, first.details, [])
  {
  }

  /** A configured type other than "ec2" never reaches the metadata service
      and yields the constant local record. */
  lemma ConfiguredLocal(env: map<string, string>, probe: Probe)
    requires TypeConfigured(env) && env["MACHINE_TYPE"] != "ec2"
    ensures var r := GetDetails(Start, env, probe);
            && r.requests == []
            && r.details == Success(Blank["type" := Str("local")] + LocalData)
  {
  }

  /** Without a configured type, the hostname is fetched first; a hostname
      without "ec2" in it gives the local record, id and machine id "dev",
      region "local", both addresses 127.0.0.1. */
  lemma DetectedLocal(p: Process, env: map<string, string>, probe: Probe)
    requires !p.constructed && !TypeConfigured(env)
    requires probe.hostname.None? || !exists i :: OccursAt(probe.hostname.value, "ec2", i)
    ensures var r := GetDetails(p, env, probe);
            && r.requests == [HostnameRequest]
            && r.details.Success?
            && Field(r.details.value, "type") == Str("local")
            && Field(r.details.value, "id") == Str("dev") && Field(r.details.value, "machineId") == Str("dev")
            && Field(r.details.value, "region") == Str("local")
            && Field(r.details.value, "publicIp") == Str("127.0.0.1")
            && Field(r.details.value, "privateIp") == Str("127.0.0.1")
  {
    assert ResolveType(env, probe.hostname) == TypeDecision("local", true);
    LocalFields(p.details);
  }

  /** The fields of the local record, merged over any record. */
  lemma LocalFields(details: Record)
    ensures var merged := details["type" := Str("local")] + LocalData;
            && Field(merged, "type") == Str("local")
            && Field(merged, "id") == Str("dev") && Field(merged, "machineId") == Str("dev")
            && Field(merged, "region") == Str("local")
            && Field(merged, "publicIp") == Str("127.0.0.1")
            && Field(merged, "privateIp") == Str("127.0.0.1")
  {
  }

  /** On EC2, an identity document that is empty or not an array makes the
      resolution fail rather than return partial data; the type is left
      written as "ec2" and the singleton is not created. */
  lemma InvalidDocumentFails(p: Process, env: map<string, string>, probe: Probe)
    requires !p.constructed
    requires ResolveType(env, probe.hostname).machineType == "ec2"
    requires probe.document.NotArray? || |probe.document.entries| == 0
    ensures var r := GetDetails(p, env, probe);
            && r.details.Failure?
            && !r.process.constructed
            && Field(r.process.details, "type") == Str("ec2")
            && DocumentRequest in r.requests
  {
  }

  /** On EC2 with a document naming the instance, the machine id is the
      instance id without its first two characters ("i-0a12" gives "0a12"). */
  lemma MachineIdFromInstanceId(p: Process, env: map<string, string>, probe: Probe, instanceId: string)
    requires !p.constructed && WellFormed(p.details)
    requires ResolveType(env, probe.hostname).machineType == "ec2"
    requires probe.document.Array? && "instanceId" in probe.document.entries
    requires probe.document.entries["instanceId"] == Str(instanceId)
    ensures var r := GetDetails(p, env, probe);
            && r.details.Success?
            && Field(r.details.value, "instanceId") == Str(instanceId)
            && Field(r.details.value, "machineId") == Str(Substr(instanceId, 2))
            && (|instanceId| > 2 ==> instanceId == instanceId[..2] + AsString(Field(r.details.value, "machineId")))
  {
    var typed := p.details["type" := Str("ec2")];
    var out := GetEc2Data(typed, probe.document).value;
    assert out["instanceId"] == MergedField(typed, probe.document.entries, "instanceId");
    assert out["machineId"] == MergedField(typed, probe.document.entries, "machineId");
  }

  // ---------------------------------------------------------------------
  // fullMachineId

  /** The parts of the full machine id that survive `array_filter`. */
  function PresentStrings(vs: seq<Scalar>): (r: seq<string>)
    ensures forall i :: 0 <= i < |r| ==> !Falsy(Str(r[i]))
    ensures forall x :: x in r <==> Str(x) in vs && !Falsy(Str(x))
  {
    if |vs| == 0 then []
    else
      var rest := PresentStrings(vs[1..]);
      assert vs == [vs[0]] + vs[1..];
      if Falsy(vs[0]) then rest else [AsString(vs[0])] + rest
  }

  /** `array_filter` keeps the order of what it keeps: a value listed before
      another among the present strings occurs first before it among the
      candidates. */
  lemma {:induction false} PresentStringsOrder(vs: seq<Scalar>, x: string, y: string)
    requires x in PresentStrings(vs) && y in PresentStrings(vs)
    requires FirstIndex(PresentStrings(vs), x) < FirstIndex(PresentStrings(vs), y)
    ensures Str(x) in vs && Str(y) in vs
    ensures FirstIndex(vs, Str(x)) < FirstIndex(vs, Str(y))
  {
    var r := PresentStrings(vs);
    var tail := vs[1..];
    var rest := PresentStrings(tail);
    FirstIndexCons(vs, Str(x));
    FirstIndexCons(vs, Str(y));
    if Falsy(vs[0]) {
      assert r == rest;
      PresentStringsOrder(tail, x, y);
    } else {
      var a := AsString(vs[0]);
      assert r == [a] + rest;
      FirstIndexCons(r, x);
      FirstIndexCons(r, y);
      if x != a {
        PresentStringsOrder(tail, x, y);
      }
    }
  }

  /** The candidates for the parts of the full machine id, in order: the
      configured type, the region and the machine id. */
  function IdCandidates(env: map<string, string>, details: Record): seq<Scalar> {
    [Helpers.Config(env, "MACHINE_TYPE", Null), Field(details, "region"), Field(details, "machineId")]
  }

  /** The parts of the full machine id: the configured type, the region and
      the machine id, without falsy ones, each value once, in that order. */
  function IdParts(env: map<string, string>, details: Record): (parts: seq<string>)
    ensures Distinct(parts)
    ensures forall i :: 0 <= i < |parts| ==> parts[i] != "" && parts[i] != "0"
    ensures forall x :: x in parts <==>
      (TypeConfigured(env) && x == env["MACHINE_TYPE"]) ||
      (Field(details, "region") == Str(x) && !Falsy(Str(x))) ||
      (Field(details, "machineId") == Str(x) && !Falsy(Str(x)))
    ensures forall i :: 0 <= i < |parts| ==> Str(parts[i]) in IdCandidates(env, details)
    ensures forall i, j :: 0 <= i < j < |parts| ==>
      FirstIndex(IdCandidates(env, details), Str(parts[i])) < FirstIndex(IdCandidates(env, details), Str(parts[j]))
  {
    var candidates := IdCandidates(env, details);
    var present := PresentStrings(candidates);
    var parts := Unique(present);
    IdPartsMembers(env, details, present, parts);
    UniquePresentOrder(candidates, present, parts);
    parts
  }

  /** The present strings among the candidates are the configured type, a
      region and a machine id that are not falsy. */
  lemma IdPartsMembers(env: map<string, string>, details: Record, present: seq<string>, parts: seq<string>)
    requires present == PresentStrings(IdCandidates(env, details)) && parts == Unique(present)
    ensures forall i :: 0 <= i < |parts| ==> parts[i] != "" && parts[i] != "0"
    ensures forall x :: x in parts <==>
      (TypeConfigured(env) && x == env["MACHINE_TYPE"]) ||
      (Field(details, "region") == Str(x) && !Falsy(Str(x))) ||
      (Field(details, "machineId") == Str(x) && !Falsy(Str(x)))
  {
    forall x
      ensures x in parts <==>
        (TypeConfigured(env) && x == env["MACHINE_TYPE"]) ||
        (Field(details, "region") == Str(x) && !Falsy(Str(x))) ||
        (Field(details, "machineId") == Str(x) && !Falsy(Str(x)))
    {
      if x in present { assert present[FirstIndex(present, x)] == x; }
      CandidateMember(env, details, x);
    }
  }

  /** A present candidate is the configured type, the region or the machine id. */
  lemma CandidateMember(env: map<string, string>, details: Record, x: string)
    ensures Str(x) in IdCandidates(env, details) && !Falsy(Str(x)) <==>
      (TypeConfigured(env) && x == env["MACHINE_TYPE"]) ||
      (Field(details, "region") == Str(x) && !Falsy(Str(x))) ||
      (Field(details, "machineId") == Str(x) && !Falsy(Str(x)))
  {
  }

  /** The order `Unique` keeps among the present strings is the order of
      the candidates they come from. */
  lemma UniquePresentOrder(vs: seq<Scalar>, present: seq<string>, parts: seq<string>)
    requires present == PresentStrings(vs) && parts == Unique(present)
    ensures forall i :: 0 <= i < |parts| ==> Str(parts[i]) in vs
    ensures forall i, j :: 0 <= i < j < |parts| ==> FirstIndex(vs, Str(parts[i])) < FirstIndex(vs, Str(parts[j]))
  {
    forall i, j | 0 <= i < j < |parts|
      ensures FirstIndex(vs, Str(parts[i])) < FirstIndex(vs, Str(parts[j]))
    {
      PresentStringsOrder(vs, parts[i], parts[j]);
    }
  }

  /** `fullMachineId()`: the parts joined with "-"; empty only when no part
      is present, and starting with the first part otherwise. */
  function FullMachineId(env: map<string, string>, details: Record): (id: string)
    ensures id == "" <==> IdParts(env, details) == []
    ensures |IdParts(env, details)| > 0 ==> IdParts(env, details)[0] <= id
  {
    Implode("-", IdParts(env, details))
  }

  /** A configured type, a region and a machine id that are all present and
      all different give "type-region-machineId". */
  lemma FullMachineIdOfThree(env: map<string, string>, details: Record, region: string, machineId: string)
    requires TypeConfigured(env)
    requires Field(details, "region") == Str(region) && !Falsy(Str(region))
    requires Field(details, "machineId") == Str(machineId) && !Falsy(Str(machineId))
    requires env["MACHINE_TYPE"] != region && env["MACHINE_TYPE"] != machineId && region != machineId
    ensures FullMachineId(env, details) == env["MACHINE_TYPE"] + "-" + region + "-" + machineId
  {
    var t := env["MACHINE_TYPE"];
    PresentOfThree(t, region, machineId);
    assert IdCandidates(env, details) == [Str(t), Str(region), Str(machineId)];
    UniqueOfDistinct([t, region, machineId]);
    ImplodeOfThree("-", t, region, machineId);
  }

  lemma PresentOfThree(a: string, b: string, c: string)
    requires !Falsy(Str(a)) && !Falsy(Str(b)) && !Falsy(Str(c))
    ensures PresentStrings([Str(a), Str(b), Str(c)]) == [a, b, c]
  {
    var vs: seq<Scalar> := [Str(a), Str(b), Str(c)];
    assert vs[1..] == [Str(b), Str(c)] && vs[1..][1..] == [Str(c)] && vs[1..][1..][1..] == [];
    assert PresentStrings(vs[1..][1..]) == [c];
    assert PresentStrings(vs[1..]) == [b, c];
  }

  /** The usual run on EC2: no type configured (unset, "" or "0"), and a
      region and machine id that are present and different give
      "region-machineId". */
  lemma FullMachineIdOfTwo(env: map<string, string>, details: Record, region: string, machineId: string)
    requires !TypeConfigured(env)
    requires Field(details, "region") == Str(region) && !Falsy(Str(region))
    requires Field(details, "machineId") == Str(machineId) && !Falsy(Str(machineId))
    requires region != machineId
    ensures FullMachineId(env, details) == region + "-" + machineId
  {
    var first := IdCandidates(env, details)[0];
    PresentAfterFalsy(first, region, machineId);
    assert IdCandidates(env, details) == [first, Str(region), Str(machineId)];
    UniqueOfDistinct([region, machineId]);
    ImplodeOfTwo("-", region, machineId);
  }

  lemma PresentAfterFalsy(f: Scalar, b: string, c: string)
    requires Falsy(f) && !Falsy(Str(b)) && !Falsy(Str(c))
    ensures PresentStrings([f, Str(b), Str(c)]) == [b, c]
  {
    var vs: seq<Scalar> := [f, Str(b), Str(c)];
    assert vs[1..] == [Str(b), Str(c)] && vs[1..][1..] == [Str(c)] && vs[1..][1..][1..] == [];
    assert PresentStrings(vs[1..][1..]) == [c];
    assert PresentStrings(vs[1..]) == [b, c];
  }

  /** The local record gives "local-dev"; a configured type equal to the
      region is kept once. */
  lemma FullMachineIdLocal(env: map<string, string>)
    requires "MACHINE_TYPE" !in env || env["MACHINE_TYPE"] == "local"
    ensures FullMachineId(env, Blank["type" := Str("local")] + LocalData) == "local-dev"
  {
    IdPartsLocal(env);
    assert Implode("-", ["local", "dev"]) == "local" + "-" + "dev" by {
      assert ["local", "dev"][1..] == ["dev"];
    }
    JoinLocalDev();
  }

  lemma IdPartsLocal(env: map<string, string>)
    requires "MACHINE_TYPE" !in env || env["MACHINE_TYPE"] == "local"
    ensures IdParts(env, Blank["type" := Str("local")] + LocalData) == ["local", "dev"]
  {
    var details := Blank["type" := Str("local")] + LocalData;
    assert Field(details, "region") == Str("local");
    assert Field(details, "machineId") == Str("dev");
    var configured: Scalar := Helpers.Config(env, "MACHINE_TYPE", Null);
    PresentLocal(configured);
    UniqueOfPair("local", "dev");
  }

  lemma JoinLocalDev()
    ensures "local" + "-" + "dev" == "local-dev"
  {
    var j := "local" + "-" + "dev";
    assert |j| == 9;
    assert forall i :: 0 <= i < 9 ==> j[i] == "local-dev"[i];
  }

  lemma PresentLocal(configured: Scalar)
    requires configured == Null || configured == Str("local")
    ensures PresentStrings([configured, Str("local"), Str("dev")]) ==
      if configured.Null? then ["local", "dev"] else ["local", "local", "dev"]
  {
    var c: seq<Scalar> := [configured, Str("local"), Str("dev")];
    var tail: seq<Scalar> := [Str("local"), Str("dev")];
    assert c[1..] == tail;
    assert tail[1..] == [Str("dev")];
    assert PresentStrings([Str("dev")]) == ["dev"] by {
      assert [Str("dev")][1..] == [];
    }
    assert PresentStrings(tail) == ["local", "dev"];
    if configured.Null? {
      assert PresentStrings(c) == PresentStrings(tail);
    } else {
      assert PresentStrings(c) == ["local"] + PresentStrings(tail);
    }
  }

  lemma UniqueOfPair<T>(a: T, b: T)
    requires a != b
    ensures Unique([a, b]) == [a, b] && Unique([a, a, b]) == [a, b]
  {
    var one := [a];
    assert one[..0] == [];
    assert [a, b][..1] == one && [a, a][..1] == one;
    assert Unique([a, a]) == [a];
    assert [a, a, b][..2] == [a, a];
  }

  // ---------------------------------------------------------------------
  // publicIp

  /** What a call of the public-IP accessor returns and leaves behind. */
  datatype IpLookup = IpLookup(process: Process, ip: Result<Scalar, string>, requests: seq<Request>)

  /** The fetched address, or the `false` of a failed fetch. */
  function Fetched(answer: Option<string>): (v: Scalar)
    ensures IsSet(v)
  {
    if answer.Some? then Str(answer.value) else Bool(false)
  }

  /** Fills the public-IP field when it is still null: fetched on EC2, the
      loopback address elsewhere. A failed fetch stores `false`, which is not
      null, so it is not retried either. */
  function CachePublicIp(details: Record, probe: Probe): (r: (Record, seq<Request>))
    ensures IsSet(Field(r.0, "publicIp"))
    ensures Field(details, "publicIp").Null? ==>
      Field(r.0, "publicIp") == if Field(details, "type") == Str("ec2") then Fetched(probe.publicIp) else Str("127.0.0.1")
    ensures r.1 == (if Field(details, "publicIp").Null? && Field(details, "type") == Str("ec2") then [PublicIpRequest] else [])
    ensures !Field(details, "publicIp").Null? ==> r.0 == details
    ensures forall k :: k != "publicIp" ==> Field(r.0, k) == Field(details, k)
  {
    if Field(details, "publicIp").Null? then
      if Field(details, "type") == Str("ec2") then (details["publicIp" := Fetched(probe.publicIp)], [PublicIpRequest])
      else (details["publicIp" := Str("127.0.0.1")], [])
    else (details, [])
  }

  /** Resolves the details, then caches the public IP. */
  function LookUpPublicIp(p: Process, env: map<string, string>, probe: Probe): (r: Resolution)
    ensures r.details.Success? ==> r.process.constructed && IsSet(Field(r.process.details, "publicIp"))
  {
    var d := GetDetails(p, env, probe);
    if d.details.Failure? then d
    else
      var cached := CachePublicIp(d.process.details, probe);
      Resolution(Process(true, cached.0), Success(cached.0), d.requests + cached.1)
  }

  /** `publicIp()` as written: it caches the public address but returns the
      private one. */
  function PublicIp(p: Process, env: map<string, string>, probe: Probe): (r: IpLookup)
    ensures r.ip.Success? ==> r.ip.value == Field(r.process.details, "privateIp")
    ensures r.ip.Success? ==> IsSet(Field(r.process.details, "publicIp"))
  {
    var d := LookUpPublicIp(p, env, probe);
    IpLookup(d.process, if d.details.Success? then Success(Field(d.process.details, "privateIp")) else Failure(d.details.error), d.requests)
  }

  /** `publicIp()` returning the field it caches, as its name promises. */
  function PublicIpCorrected(p: Process, env: map<string, string>, probe: Probe): (r: IpLookup)
    ensures r.ip.Success? ==> r.ip.value == Field(r.process.details, "publicIp") && IsSet(r.ip.value)
    ensures var d := GetDetails(p, env, probe);
      d.details.Success? && Field(d.process.details, "publicIp").Null? ==>
        r.ip == Success(if Field(d.process.details, "type") == Str("ec2") then Fetched(probe.publicIp) else Str("127.0.0.1"))
  {
    var d := LookUpPublicIp(p, env, probe);
    IpLookup(d.process, if d.details.Success? then Success(Field(d.process.details, "publicIp")) else Failure(d.details.error), d.requests)
  }

  /** The public address is fetched at most once: a second call asks nothing
      and returns what the first one did. */
  lemma PublicIpCached(p: Process, env: map<string, string>, probe: Probe, probe': Probe)
    requires PublicIpCorrected(p, env, probe).ip.Success?
    ensures var first := PublicIpCorrected(p, env, probe);
            var second := PublicIpCorrected(first.process, env, probe');
            second.requests == [] && second.ip == first.ip && second.process == first.process
  {
  }

  /** On EC2 with a private address known and the public one not yet cached,
      the accessor returns the private address although it fetched the public
      one; the corrected accessor returns the fetched address. */
  lemma PublicIpReturnsPrivateIp()
    ensures var details := Blank["type" := Str("ec2")]["instanceId" := Str("i-0a12")]["privateIp" := Str("172.31.59.103")];
            var p := Process(true, details);
            var probe := Probe(None, NotArray, Some("54.210.1.2"));
            && PublicIp(p, map[], probe).ip == Success(Str("172.31.59.103"))
            && PublicIpCorrected(p, map[], probe).ip == Success(Str("54.210.1.2"))
            && PublicIp(p, map[], probe).requests == [PublicIpRequest]
  {
  }
}
