/** Internal zones served from configuration. */
module Zones {
  import opened Seqs
  import opened Sorting
  import opened Names

  datatype LocalRecord = LocalRecord(name: string, rtype: string, value: string, ttl: Option<nat>)
  datatype LocalZone = LocalZone(name: string, authoritative: bool, records: seq<LocalRecord>)

  datatype ZoneRecord = ZoneRecord(rtype: nat, ttl: nat, data: string)
  datatype Zone = Zone(apex: string, authoritative: bool, records: map<string, seq<ZoneRecord>>)

  datatype ZoneAnswer = Records(records: seq<ZoneRecord>) | NoData | NxDomain | NotInZone

  const CNAME := 5

  /** Name and rdata parsing, as an arbitrary function of owner, TTL, type and value. */
  type Parser = (string, nat, string, string) -> Option<ZoneRecord>

  function Apex(z: LocalZone): string {
    Lower(TrimEnd(z.name))
  }

  function Owner(apex: string, name: string): string {
    if name == "@" || name == "" then apex + "."
    else if EndsWith(name, ".") then Lower(name)
    else Lower(name) + ("." + (apex + "."))
  }

  function Parse(parse: Parser, ttl: nat, apex: string, r: LocalRecord): Option<ZoneRecord> {
    parse(Owner(apex, r.name), if r.ttl.Some? then r.ttl.value else ttl, r.rtype, r.value)
  }

  /** The parsed records stored under `key`, in configured order. */
  function Owned(parse: Parser, ttl: nat, apex: string, records: seq<LocalRecord>, key: string): seq<ZoneRecord> {
    if records == [] then []
    else
      var r := records[|records| - 1];
      var rest := Owned(parse, ttl, apex, records[..|records| - 1], key);
      var parsed := Parse(parse, ttl, apex, r);
      if Normalize(Owner(apex, r.name)) == key && parsed.Some? then rest + [parsed.value] else rest
  }

  predicate AllParse(parse: Parser, ttl: nat, apex: string, records: seq<LocalRecord>) {
    forall i :: 0 <= i < |records| ==> Parse(parse, ttl, apex, records[i]).Some?
  }

  /** The record map holds exactly the owned records of every owner that has some. */
  ghost predicate Holds(parse: Parser, ttl: nat, apex: string, records: seq<LocalRecord>, m: map<string, seq<ZoneRecord>>) {
    forall key ::
      var owned := Owned(parse, ttl, apex, records, key);
      (key in m <==> owned != []) && (key in m ==> m[key] == owned)
  }

  ghost predicate Built(parse: Parser, ttl: nat, config: LocalZone, z: Zone) {
    && z.apex == Apex(config) && z.authoritative == config.authoritative
    && Holds(parse, ttl, z.apex, config.records, z.records)
  }

  ghost predicate Acceptable(parse: Parser, ttl: nat, config: LocalZone) {
    Apex(config) != "" && AllParse(parse, ttl, Apex(config), config.records)
  }

  function ZoneLeq(): (Zone, Zone) -> bool {
    (a: Zone, b: Zone) => |a.apex| >= |b.apex|
  }

  function Text(): Zone -> string {
    (z: Zone) => z.apex
  }

  function Encloses(name: string): Zone -> bool {
    (z: Zone) => DottedMatches(name, z.apex)
  }

  function Pushed(m: map<string, seq<ZoneRecord>>, key: string, r: ZoneRecord): map<string, seq<ZoneRecord>> {
    m[key := (if key in m then m[key] else []) + [r]]
  }

  lemma HoldsPushed(parse: Parser, ttl: nat, apex: string, records: seq<LocalRecord>, m: map<string, seq<ZoneRecord>>)
    requires records != [] && Holds(parse, ttl, apex, records[..|records| - 1], m)
    requires Parse(parse, ttl, apex, records[|records| - 1]).Some?
    ensures var r := records[|records| - 1];
            Holds(parse, ttl, apex, records, Pushed(m, Normalize(Owner(apex, r.name)), Parse(parse, ttl, apex, r).value))
  {
    hide Normalize, Owner, Parse;
    var r := records[|records| - 1];
    var mine := Normalize(Owner(apex, r.name));
    var next := Pushed(m, mine, Parse(parse, ttl, apex, r).value);
    forall key
      ensures var owned := Owned(parse, ttl, apex, records, key);
              (key in next <==> owned != []) && (key in next ==> next[key] == owned)
    {
      var before := Owned(parse, ttl, apex, records[..|records| - 1], key);
      assert (key in m <==> before != []) && (key in m ==> m[key] == before);
    }
  }

  lemma NothingHeld(parse: Parser, ttl: nat, apex: string)
    ensures Holds(parse, ttl, apex, [], map[])
  {
  }

  method BuildRecords(parse: Parser, ttl: nat, apex: string, records: seq<LocalRecord>)
    returns (m: Option<map<string, seq<ZoneRecord>>>)
    ensures m.Some? <==> AllParse(parse, ttl, apex, records)
    ensures m.Some? ==> Holds(parse, ttl, apex, records, m.value)
  {
    hide Normalize, Owner, Parse, Holds, Pushed;
    NothingHeld(parse, ttl, apex);
    assert records[..0] == [];
    var found: map<string, seq<ZoneRecord>> := map[];
    for i := 0 to |records|
      invariant AllParse(parse, ttl, apex, records[..i])
      invariant Holds(parse, ttl, apex, records[..i], found)
    {
      assert records[..i + 1][..i] == records[..i];
      var parsed := Parse(parse, ttl, apex, records[i]);
      if parsed.None? {
        return None;
      }
      var key := Normalize(Owner(apex, records[i].name));
      HoldsPushed(parse, ttl, apex, records[..i + 1], found);
      found := Pushed(found, key, parsed.value);
    }
    assert records[..|records|] == records;
    return Some(found);
  }

  /** No owner maps to an empty list. */
  predicate Tidy(zones: seq<Zone>) {
    forall z :: z in zones ==> forall key :: key in z.records ==> z.records[key] != []
  }

  lemma BuiltTidy(parse: Parser, ttl: nat, configs: seq<LocalZone>, zones: seq<Zone>)
    requires |zones| == |configs| && forall i :: 0 <= i < |configs| ==> Built(parse, ttl, configs[i], zones[i])
    ensures Tidy(Sort(zones, ZoneLeq()))
  {
    SortPermutes(zones, ZoneLeq());
    forall z, key | z in Sort(zones, ZoneLeq()) && key in z.records
      ensures z.records[key] != []
    {
      var i :| 0 <= i < |zones| && zones[i] == z;
      assert Holds(parse, ttl, z.apex, configs[i].records, z.records);
    }
  }

  /** `LocalZoneSet::build`: refuse an empty apex or an unparsable record, then sort longest apex first. */
  method Build(parse: Parser, ttl: nat, configs: seq<LocalZone>) returns (built: Option<seq<Zone>>, ghost unsorted: seq<Zone>)
    ensures built.Some? <==> forall i :: 0 <= i < |configs| ==> Acceptable(parse, ttl, configs[i])
    ensures built.Some? ==> Tidy(built.value)
    ensures built.Some? ==>
              && built.value == Sort(unsorted, ZoneLeq()) && |unsorted| == |configs|
              && forall i :: 0 <= i < |configs| ==> Built(parse, ttl, configs[i], unsorted[i])
  {
    var out: seq<Zone> := [];
    unsorted := [];
    for i := 0 to |configs|
      invariant |out| == i
      invariant forall k :: 0 <= k < i ==> Acceptable(parse, ttl, configs[k]) && Built(parse, ttl, configs[k], out[k])
    {
      hide Holds, AllParse;
      var apex := Lower(TrimEnd(configs[i].name));
      if apex == "" {
        return None, [];
      }
      var records := BuildRecords(parse, ttl, apex, configs[i].records);
      if records.None? {
        return None, [];
      }
      out := out + [Zone(apex, configs[i].authoritative, records.value)];
    }
    unsorted := out;
    BuiltTidy(parse, ttl, configs, out);
    return Some(Sort(out, ZoneLeq())), unsorted;
  }

  function Wanted(qtype: nat): ZoneRecord -> bool {
    (r: ZoneRecord) => r.rtype == qtype || r.rtype == CNAME
  }

  /** The answer of one zone, from the records its owner has. */
  function Answer(authoritative: bool, owned: seq<ZoneRecord>, qtype: nat): ZoneAnswer {
    if owned == [] then (if authoritative then NxDomain else NotInZone)
    else if Filter(Wanted(qtype), owned) == [] then NoData
    else Records(Filter(Wanted(qtype), owned))
  }

  function At(z: Zone, key: string): seq<ZoneRecord> {
    if key in z.records then z.records[key] else []
  }

  function LookupIn(zones: seq<Zone>, name: string, qtype: nat): ZoneAnswer {
    var n := Lower(TrimEnd(name));
    var z := First(Encloses(n), zones);
    if z.None? then NotInZone else Answer(z.value.authoritative, At(z.value, Normalize(n)), qtype)
  }

  /** `LocalZoneSet::lookup` */
  method Lookup(zones: seq<Zone>, name: string, qtype: nat) returns (answer: ZoneAnswer)
    requires Tidy(zones)
    ensures answer == LookupIn(zones, name, qtype)
  {
    var n := Lower(TrimEnd(name));
    for i := 0 to |zones|
      invariant First(Encloses(n), zones) == First(Encloses(n), zones[i..])
    {
      var zone := zones[i];
      assert zone in zones;
      assert zones[i..][1..] == zones[i + 1..];
      if n != zone.apex && !EndsWith(n, "." + zone.apex) {
        continue;
      }
      var key := Normalize(n);
      if key in zone.records {
        var matching := Filter(Wanted(qtype), zone.records[key]);
        return if matching == [] then NoData else Records(matching);
      }
      return if zone.authoritative then NxDomain else NotInZone;
    }
    return NotInZone;
  }

  // ----- meaning

  lemma ZoneOrder()
    ensures LongestFirst(Text(), ZoneLeq())
  {
  }

  lemma EnclosesByText(name: string)
    ensures ByText(Text(), Encloses(name))
  {
    forall x: Zone, y: Zone | Encloses(name)(x) && Encloses(name)(y) && |Text()(x)| == |Text()(y)|
      ensures Text()(x) == Text()(y)
    {
      SameLengthSameSuffix(name, x.apex, y.apex);
    }
  }

  ghost predicate Configured(configs: seq<LocalZone>, apexes: seq<Labels>) {
    |configs| == |apexes| && forall i :: 0 <= i < |configs| ==>
      && WellFormed(apexes[i]) && apexes[i] != []
      && (configs[i].name == Dotted(apexes[i]) || configs[i].name == Absolute(apexes[i]))
  }

  lemma ApexText(config: LocalZone, a: Labels)
    requires WellFormed(a) && (config.name == Dotted(a) || config.name == Absolute(a))
    ensures Apex(config) == Dotted(LowerAll(a))
  {
    TrimName(a);
    LowerDotted(a);
  }

  lemma EnclosesIsCovers(z: Zone, a: Labels, n: Labels)
    requires WellFormed(a) && WellFormed(n) && z.apex == Dotted(LowerAll(a))
    ensures Encloses(Dotted(LowerAll(n)))(z) <==> Covers(a, n)
  {
    LowerWellFormed(a);
    LowerWellFormed(n);
    DottedMatchesMeaning(LowerAll(n), LowerAll(a));
  }

  /** What the configuration promises for `n`, when zone `i` decides it. */
  function Promised(parse: Parser, ttl: nat, config: LocalZone, n: Labels, qtype: nat): ZoneAnswer {
    Answer(config.authoritative, Owned(parse, ttl, Apex(config), config.records, Absolute(LowerAll(n))), qtype)
  }

  lemma QueryText(n: Labels, name: string)
    requires WellFormed(n) && (name == Absolute(n) || name == Dotted(n))
    ensures Lower(TrimEnd(name)) == Dotted(LowerAll(n))
    ensures n != [] ==> Normalize(Dotted(LowerAll(n))) == Absolute(LowerAll(n))
  {
    TrimName(n);
    LowerDotted(n);
    LowerWellFormed(n);
    NormalizeName(LowerAll(n));
    LowerTwice(n);
  }

  lemma ZonesCover(parse: Parser, ttl: nat, configs: seq<LocalZone>, apexes: seq<Labels>, zones: seq<Zone>, n: Labels)
    requires Configured(configs, apexes) && WellFormed(n) && |zones| == |configs|
    requires forall i :: 0 <= i < |configs| ==> Built(parse, ttl, configs[i], zones[i])
    ensures forall j :: 0 <= j < |zones| ==> (Encloses(Dotted(LowerAll(n)))(zones[j]) <==> Covers(apexes[j], n))
    ensures forall j :: 0 <= j < |zones| ==> Text()(zones[j]) == Dotted(LowerAll(apexes[j]))
  {
    forall j | 0 <= j < |zones|
      ensures Encloses(Dotted(LowerAll(n)))(zones[j]) <==> Covers(apexes[j], n)
      ensures Text()(zones[j]) == Dotted(LowerAll(apexes[j]))
    {
      ApexText(configs[j], apexes[j]);
      EnclosesIsCovers(zones[j], apexes[j], n);
    }
  }

  /**
   A query is answered by exactly one zone: the enclosing zone with the most labels, the first one
   configured when two share an apex. A query inside no zone is not answered here, and a query
   inside a zone is never passed on to a less specific zone.
   */
  lemma MostSpecificZoneAnswers(
    parse: Parser, ttl: nat, configs: seq<LocalZone>, apexes: seq<Labels>, zones: seq<Zone>, n: Labels, name: string, qtype: nat)
    returns (i: nat)
    requires Configured(configs, apexes) && |zones| == |configs|
    requires forall i :: 0 <= i < |configs| ==> Built(parse, ttl, configs[i], zones[i])
    requires WellFormed(n) && (name == Absolute(n) || name == Dotted(n))
    ensures var answer := LookupIn(Sort(zones, ZoneLeq()), name, qtype);
            if forall j :: 0 <= j < |configs| ==> !Covers(apexes[j], n) then answer == NotInZone
            else Decides(apexes, n, i) && i < |configs| && answer == Promised(parse, ttl, configs[i], n, qtype)
  {
    hide Dotted, Absolute, LowerAll, Lower, Built, Normalize, Owned;
    var d := Dotted(LowerAll(n));
    var hit := Encloses(d);
    QueryText(n, name);
    ZoneOrder();
    EnclosesByText(d);
    i := FirstIsMostSpecific(zones, Text(), ZoneLeq(), hit);
    ZonesCover(parse, ttl, configs, apexes, zones, n);
    if First(hit, Sort(zones, ZoneLeq())).Some? {
      MostSpecificDecides(zones, Text(), hit, apexes, n, i);
      CoveredIsNotRoot(apexes[i], n);
      BuiltHolds(parse, ttl, configs[i], zones[i], Absolute(LowerAll(n)));
    }
  }

  lemma CoveredIsNotRoot(a: Labels, n: Labels)
    requires a != [] && Covers(a, n)
    ensures n != []
  {
  }

  lemma BuiltHolds(parse: Parser, ttl: nat, config: LocalZone, z: Zone, key: string)
    requires Built(parse, ttl, config, z)
    ensures z.authoritative == config.authoritative
    ensures At(z, key) == Owned(parse, ttl, Apex(config), config.records, key)
  {
  }

  /** A zone answers with all the owner's records of the type asked for or CNAME and no others; NoData means it has records but none of those. */
  lemma AnswerMeaning(authoritative: bool, owned: seq<ZoneRecord>, qtype: nat)
    ensures var a := Answer(authoritative, owned, qtype);
            && (a == NxDomain <==> owned == [] && authoritative) && (a == NotInZone <==> owned == [] && !authoritative)
            && (a == NoData <==> owned != [] && forall r :: r in owned ==> r.rtype != qtype && r.rtype != 5)
            && (a.Records? ==> forall r :: r in a.records <==> r in owned && (r.rtype == qtype || r.rtype == 5))
  {
    var matching := Filter(Wanted(qtype), owned);
    forall r
      ensures r in matching <==> r in owned && (r.rtype == qtype || r.rtype == 5)
    {
      FilterMember(Wanted(qtype), owned, r);
    }
    if matching != [] {
      assert matching[0] in matching;
    }
  }

  /** The stored records of an owner are what the parser makes of the configured ones, with their own TTL or the default. */
  lemma {:induction false} OwnedMembers(parse: Parser, ttl: nat, apex: string, records: seq<LocalRecord>, key: string, x: ZoneRecord)
    ensures x in Owned(parse, ttl, apex, records, key) <==>
            exists i :: 0 <= i < |records| && Makes(parse, ttl, apex, records[i], key, x)
  {
    hide Normalize, Owner;
    if records != [] {
      var init, r := records[..|records| - 1], records[|records| - 1];
      OwnedMembers(parse, ttl, apex, init, key, x);
      assert forall i :: 0 <= i < |init| ==> init[i] == records[i];
    }
  }

  predicate Makes(parse: Parser, ttl: nat, apex: string, r: LocalRecord, key: string, x: ZoneRecord) {
    && Normalize(Owner(apex, r.name)) == key
    && parse(Owner(apex, r.name), match r.ttl { case Some(own) => own case None => ttl }, r.rtype, r.value) == Some(x)
  }

  // ----- where a configured record is stored

  lemma ApexOwner(a: Labels)
    requires a != []
    ensures var apex := Dotted(LowerAll(a));
            Normalize(Owner(apex, "@")) == Normalize(Owner(apex, "")) == Absolute(LowerAll(a))
  {
    hide Dotted, LowerAll, Normalize, Joined;
    DottedJoined(LowerAll(a));
    OwnerText(a);
  }

  lemma AbsoluteOwner(r: Labels, apex: string)
    requires WellFormed(r) && r != []
    ensures Normalize(Owner(apex, Absolute(r))) == Absolute(LowerAll(r))
  {
    hide LowerAll, Normalize, Joined, Dotted, Lower;
    JoinedLong(r);
    JoinedEnds(r);
    LowerAbsolute(r);
    OwnerText(r);
  }

  lemma JoinedRelative(a: Labels, r: Labels)
    requires a != [] && r != []
    ensures Absolute(LowerAll(r + a)) == Dotted(LowerAll(r)) + ("." + (Dotted(LowerAll(a)) + "."))
  {
    var b, q := LowerAll(a), LowerAll(r);
    assert LowerAll(r + a) == q + b;
    hide LowerAll, Dotted, Joined;
    DottedJoined(b);
    DottedJoined(q);
    JoinedConcat(q, b);
    RelativeOwner(Dotted(q), Dotted(b), Joined(q + b));
  }

  /** Relative names are completed with the apex, `@` is the apex, absolute names stand alone. */
  lemma OwnerLabels(a: Labels, r: Labels)
    requires WellFormed(r) && a != [] && r != []
    ensures var apex := Dotted(LowerAll(a));
            && Normalize(Owner(apex, "@")) == Normalize(Owner(apex, "")) == Absolute(LowerAll(a))
            && Normalize(Owner(apex, Absolute(r))) == Absolute(LowerAll(r))
            && (Dotted(r) != "@" ==> Normalize(Owner(apex, Dotted(r))) == Absolute(LowerAll(r + a)))
  {
    hide LowerAll, Dotted, Joined, Normalize, EndsWith, Absolute, Lower;
    ApexOwner(a);
    AbsoluteOwner(r, Dotted(LowerAll(a)));
    RelativeText(r);
    LowerDotted(r);
    JoinedRelative(a, r);
    OwnerText(r + a);
  }

  lemma RelativeOwner(x: string, y: string, whole: string)
    requires whole == (x + ".") + (y + ".")
    ensures x + ("." + (y + ".")) == whole
  {
  }

  /** Lower-case absolute text is its own key. */
  lemma OwnerText(n: Labels)
    requires n != []
    ensures Normalize(Absolute(LowerAll(n))) == Absolute(LowerAll(n)) == Joined(LowerAll(n))
  {
    JoinedEnds(LowerAll(n));
    LowerTwice(n);
    LowerJoined(LowerAll(n));
  }
}
