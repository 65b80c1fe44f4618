/** Canonical sessions as JSON trees, and the way back. */
module SessionCodec {
  import opened Doubles
  import opened Json
  import opened JsonReading
  import opened Revisions
  import opened WordArithmetic
  import opened Wrappers

  datatype SyncPolicy =
    | HardwareAuthoritative | DawAuthoritative | OneWayToDaw | OneWayToHardware | Bidirectional | RenderOnly
    | Unsupported

  datatype Asset = Asset(id: string, sourcePath: string, fingerprint: string, bytes: Word64, required: bool)

  datatype MusicalEvent = MusicalEvent(
    id: string, trackId: string, tick: Int64, durationTicks: Int64,
    channel: Int32, note: Int32, velocity: Int32, cc: Option<Int32>, value: Option<Double>)

  datatype Parameter = Parameter(id: string, semantic: string, normalizedValue: Double, policy: SyncPolicy)

  datatype Entry = Entry(key: string, value: string)

  predicate SortedByKey(entries: seq<Entry>) {
    forall i :: 0 < i < |entries| ==> KeyBefore(entries[i - 1].key, entries[i].key)
  }

  /** A sorted map from texts to texts: its entries in order. */
  type Metadata = entries: seq<Entry> | SortedByKey(entries)

  datatype CanonicalSession = CanonicalSession(
    sessionId: string, sourceId: string, schemaVersion: string, revision: Revision,
    assets: seq<Asset>, midiEvents: seq<MusicalEvent>, parameters: seq<Parameter>, metadata: Metadata)

  type FiniteEvent = e: MusicalEvent | e.value.Some? ==> Finite(e.value.value)
    witness MusicalEvent("", "", 0, 0, 0, 0, 0, None, None)

  type FiniteParameter = p: Parameter | Finite(p.normalizedValue)
    witness Parameter("", "", ZERO, Unsupported)

  predicate FiniteEvents(events: seq<MusicalEvent>) {
    forall i :: 0 <= i < |events| ==> events[i].value.Some? ==> Finite(events[i].value.value)
  }

  predicate FiniteParameters(parameters: seq<Parameter>) {
    forall i :: 0 <= i < |parameters| ==> Finite(parameters[i].normalizedValue)
  }

  /** A session without infinities and NaNs. */
  type Session = s: CanonicalSession | FiniteEvents(s.midiEvents) && FiniteParameters(s.parameters)
    witness CanonicalSession("", "", "", Revision(0, 0, 0), [], [], [], [])

  datatype Limits = Limits(
    snapshotBytes: nat, assets: nat, midiEvents: nat, parameters: nat, metadataEntries: nat)

  // ------------------------------------------------------------------ identity and policy names

  predicate SafeCharacter(c: char) {
    'a' <= c <= 'z' || 'A' <= c <= 'Z' || '0' <= c <= '9' || c == '-' || c == '_' || c == '.'
  }

  predicate ValidSessionId(id: string) {
    0 < |id| <= 128 && id != "." && id != ".." && forall i :: 0 <= i < |id| ==> SafeCharacter(id[i])
  }

  function PolicyName(p: SyncPolicy): string {
    match p
    case HardwareAuthoritative => "hardware_authoritative"
    case DawAuthoritative => "daw_authoritative"
    case OneWayToDaw => "one_way_to_daw"
    case OneWayToHardware => "one_way_to_hardware"
    case Bidirectional => "bidirectional"
    case RenderOnly => "render_only"
    case Unsupported => "unsupported"
  }

  function ParsePolicy(name: string): Option<SyncPolicy> {
    if name == "hardware_authoritative" then Some(HardwareAuthoritative)
    else if name == "daw_authoritative" then Some(DawAuthoritative)
    else if name == "one_way_to_daw" then Some(OneWayToDaw)
    else if name == "one_way_to_hardware" then Some(OneWayToHardware)
    else if name == "bidirectional" then Some(Bidirectional)
    else if name == "render_only" then Some(RenderOnly)
    else if name == "unsupported" then Some(Unsupported)
    else None
  }

  // ------------------------------------------------------------------ serialising

  // Members are listed in the order of their keys, as the library keeps them.

  function SerializeRevision(r: Revision): Json {
    Object([
      Member("daw", Integer(r.daw)),
      Member("hardware", Integer(r.hardware)),
      Member("session", Integer(r.session))])
  }

  function SerializeAsset(a: Asset): Json {
    Object([
      Member("bytes", Integer(a.bytes)),
      Member("fingerprint", Text(a.fingerprint)),
      Member("id", Text(a.id)),
      Member("required", Bool(a.required)),
      Member("source_path", Text(a.sourcePath))])
  }

  /** What is printed for a number that is not finite is null. */
  function SerializeDouble(d: Double): Json { if Finite(d) then Real(d) else Null }

  function SerializeEvent(e: MusicalEvent): Json {
    Object([
      Member("cc", if e.cc.Some? then Integer(e.cc.value) else Null),
      Member("channel", Integer(e.channel)),
      Member("duration_ticks", Integer(e.durationTicks)),
      Member("id", Text(e.id)),
      Member("note", Integer(e.note)),
      Member("tick", Integer(e.tick)),
      Member("track_id", Text(e.trackId)),
      Member("value", if e.value.Some? then SerializeDouble(e.value.value) else Null),
      Member("velocity", Integer(e.velocity))])
  }

  function SerializeParameter(p: Parameter): Json {
    Object([
      Member("id", Text(p.id)),
      Member("normalized_value", SerializeDouble(p.normalizedValue)),
      Member("policy", Text(PolicyName(p.policy))),
      Member("semantic", Text(p.semantic))])
  }

  function SerializeEntry(e: Entry): Member { Member(e.key, Text(e.value)) }

  function SerializeEntries(entries: seq<Entry>): seq<Member> {
    seq(|entries|, i requires 0 <= i < |entries| => SerializeEntry(entries[i]))
  }

  function SerializeAssets(assets: seq<Asset>): seq<Json> {
    seq(|assets|, i requires 0 <= i < |assets| => SerializeAsset(assets[i]))
  }

  function SerializeEvents(events: seq<MusicalEvent>): seq<Json> {
    seq(|events|, i requires 0 <= i < |events| => SerializeEvent(events[i]))
  }

  function SerializeParameters(parameters: seq<Parameter>): seq<Json> {
    seq(|parameters|, i requires 0 <= i < |parameters| => SerializeParameter(parameters[i]))
  }

  function SerializeSession(s: CanonicalSession): Json {
    Object([
      Member("assets", Array(SerializeAssets(s.assets))),
      Member("metadata", Object(SerializeEntries(s.metadata))),
      Member("midi_events", Array(SerializeEvents(s.midiEvents))),
      Member("parameters", Array(SerializeParameters(s.parameters))),
      Member("revision", SerializeRevision(s.revision)),
      Member("schema_version", Text(s.schemaVersion)),
      Member("session_id", Text(s.sessionId)),
      Member("source_id", Text(s.sourceId))])
  }

  // ------------------------------------------------------------------ parsing

  function ParseRevision(j: Json): Option<Revision> {
    match (ReadWord64(j, "session"), ReadWord64(j, "hardware"), ReadWord64(j, "daw"))
    case (Some(session), Some(hardware), Some(daw)) => Some(Revision(session, hardware, daw))
    case _ => None
  }

  function ParseAsset(j: Json): Option<Asset> {
    match (ReadText(j, "id"), ReadText(j, "source_path"), ReadText(j, "fingerprint"),
           ReadWord64(j, "bytes"), ReadBool(j, "required", true))
    case (Some(id), Some(path), Some(fingerprint), Some(bytes), Some(required)) =>
      Some(Asset(id, path, fingerprint, bytes, required))
    case _ => None
  }

  function ParseEvent(j: Json): Option<FiniteEvent> {
    match (ReadText(j, "id"), ReadText(j, "track_id"), ReadInt64(j, "tick"), ReadInt64(j, "duration_ticks"))
    case (Some(id), Some(track), Some(tick), Some(duration)) => (
      match (ReadInt32(j, "channel", 0), ReadInt32(j, "note", -1), ReadInt32(j, "velocity", -1))
      case (Some(channel), Some(note), Some(velocity)) => (
        match (ReadOptionalInt32(j, "cc"), ReadOptionalReal(j, "value"))
        case (Some(cc), Some(value)) =>
          Some(MusicalEvent(id, track, tick, duration, channel, note, velocity, cc, value))
        case _ => None)
      case _ => None)
    case _ => None
  }

  function ParseParameter(j: Json): Option<FiniteParameter> {
    match (ReadText(j, "id"), ReadText(j, "semantic"), ReadReal(j, "normalized_value"), ReadText(j, "policy"))
    case (Some(id), Some(semantic), Some(normalized), Some(name)) => (
      match ParsePolicy(name)
      case Some(policy) => Some(Parameter(id, semantic, normalized, policy))
      case None => None)
    case _ => None
  }

  function ParseEntry(m: Member): Option<Entry> {
    if m.value.Text? then Some(Entry(m.key, m.value.text)) else None
  }

  /** All items in order, or nothing if one of them does not parse. */
  function ParseAll<A, B>(items: seq<A>, parse: A -> Option<B>): Option<seq<B>> {
    if items == [] then Some([])
    else
      match (ParseAll(items[..|items| - 1], parse), parse(items[|items| - 1]))
      case (Some(front), Some(last)) => Some(front + [last])
      case _ => None
  }

  function ParseBounded<B>(j: Json, key: string, maximum: nat, parse: Json -> Option<B>): Option<seq<B>> {
    match Get(j, key)
    case Some(Array(items)) => if |items| > maximum then None else ParseAll(items, parse)
    case _ => None
  }

  /** Insertion into the map; a key that is there keeps its value. */
  function Insert(entries: Metadata, e: Entry): (r: Metadata)
    ensures |r| <= |entries| + 1
    ensures r != [] && r[|r| - 1] in {e} + if entries == [] then {} else {entries[|entries| - 1]}
  {
    if entries == [] then [e]
    else
      var last := entries[|entries| - 1];
      OrderIsTotal(last.key, e.key);
      if KeyBefore(last.key, e.key) then entries + [e]
      else if last.key == e.key then entries
      else Insert(entries[..|entries| - 1], e) + [last]
  }

  function Collect(entries: seq<Entry>): (r: Metadata)
    ensures |r| <= |entries|
  {
    if entries == [] then [] else Insert(Collect(entries[..|entries| - 1]), entries[|entries| - 1])
  }

  function ParseMetadata(j: Json, maximum: nat): Option<Metadata> {
    match Get(j, "metadata")
    case None => Some([])
    case Some(Object(members)) => (
      if |members| > maximum then None
      else
        match ParseAll(members, ParseEntry)
        case None => None
        case Some(entries) => Some(Collect(entries)))
    case _ => None
  }

  function ParseSession(j: Json, limits: Limits): Option<Session> {
    match (ReadText(j, "session_id"), ReadText(j, "source_id"), ReadText(j, "schema_version"))
    case (Some(id), Some(source), Some(schema)) =>
      if !ValidSessionId(id) || schema == "" then None
      else (
        match Get(j, "revision")
        case Some(Object(fields)) => (
          match (ParseRevision(Object(fields)), ParseMetadata(j, limits.metadataEntries))
          case (Some(revision), Some(metadata)) => (
            match (ParseBounded(j, "assets", limits.assets, ParseAsset),
                   ParseBounded(j, "midi_events", limits.midiEvents, ParseEvent),
                   ParseBounded(j, "parameters", limits.parameters, ParseParameter))
            case (Some(assets), Some(events), Some(parameters)) =>
              Some(CanonicalSession(id, source, schema, revision, assets, events, parameters, metadata))
            case _ => None)
          case _ => None)
        case _ => None)
    case _ => None
  }

  predicate InBounds(s: CanonicalSession, limits: Limits) {
    && ValidSessionId(s.sessionId) && s.schemaVersion != ""
    && |s.metadata| <= limits.metadataEntries && |s.assets| <= limits.assets
    && |s.midiEvents| <= limits.midiEvents && |s.parameters| <= limits.parameters
  }

  // ------------------------------------------------------------------ the round trip

  lemma {:induction false} ParseAllInverts<A, B>(values: seq<B>, items: seq<A>, parse: A -> Option<B>)
    requires |items| == |values|
    requires forall i :: 0 <= i < |items| ==> parse(items[i]) == Some(values[i])
    ensures ParseAll(items, parse) == Some(values)
  {
    if items != [] {
      var n := |items|;
      ParseAllInverts(values[..n - 1], items[..n - 1], parse);
      assert values[..n - 1] + [values[n - 1]] == values;
    } else {
      assert values == [];
    }
  }

  lemma {:induction false} ParseAllKeepsLength<A, B>(items: seq<A>, parse: A -> Option<B>)
    ensures ParseAll(items, parse).Some? ==> |ParseAll(items, parse).value| == |items|
  {
    if items != [] {
      ParseAllKeepsLength(items[..|items| - 1], parse);
    }
  }

  lemma {:induction false} ParseAllFails<A, B>(items: seq<A>, parse: A -> Option<B>, i: nat)
    requires i < |items| && parse(items[i]).None?
    ensures ParseAll(items, parse).None?
  {
    if i < |items| - 1 {
      ParseAllFails(items[..|items| - 1], parse, i);
    }
  }

  lemma {:induction false} CollectSorted(entries: Metadata)
    ensures Collect(entries) == entries
  {
    if entries != [] {
      CollectSorted(entries[..|entries| - 1]);
    }
  }

  lemma RevisionRoundTrip(r: Revision)
    ensures ParseRevision(SerializeRevision(r)) == Some(r)
  {
    var m := SerializeRevision(r).members;
    FindEach(m);
    assert m[0].key == "daw" && m[1].key == "hardware" && m[2].key == "session";
  }

  lemma AssetRoundTrip(a: Asset)
    ensures ParseAsset(SerializeAsset(a)) == Some(a)
  {
    var m := SerializeAsset(a).members;
    assert "source_path"[0] != "fingerprint"[0];
    FindEach(m);
    assert m[0].key == "bytes" && m[1].key == "fingerprint" && m[2].key == "id";
    assert m[3].key == "required" && m[4].key == "source_path";
  }

  lemma EventKeysDistinct(e: MusicalEvent)
    ensures DistinctKeys(SerializeEvent(e).members)
  {
    assert "id"[0] != "cc"[0] && "track_id"[0] != "velocity"[0] && "tick"[0] != "note"[0];
  }

  lemma EventMembers(e: MusicalEvent)
    ensures var m := SerializeEvent(e).members;
            && Find(m, "cc") == Some(m[0].value) && Find(m, "channel") == Some(m[1].value)
            && Find(m, "duration_ticks") == Some(m[2].value) && Find(m, "id") == Some(m[3].value)
            && Find(m, "note") == Some(m[4].value) && Find(m, "tick") == Some(m[5].value)
            && Find(m, "track_id") == Some(m[6].value) && Find(m, "value") == Some(m[7].value)
            && Find(m, "velocity") == Some(m[8].value)
  {
    EventKeysDistinct(e);
    FindEach(SerializeEvent(e).members);
  }

  /** What is left of an event once it has been printed: a value that is not finite is lost. */
  function Kept(e: MusicalEvent): FiniteEvent {
    if e.value.Some? && !Finite(e.value.value) then e.(value := None) else e
  }

  function KeptEvents(events: seq<MusicalEvent>): seq<FiniteEvent> {
    seq(|events|, i requires 0 <= i < |events| => Kept(events[i]))
  }

  function KeptSession(s: CanonicalSession): CanonicalSession { s.(midiEvents := KeptEvents(s.midiEvents)) }

  lemma EventRoundTrip(e: MusicalEvent)
    ensures ParseEvent(SerializeEvent(e)) == Some(Kept(e))
  {
    EventMembers(e);
  }

  lemma PolicyRoundTrip(p: SyncPolicy)
    ensures ParsePolicy(PolicyName(p)) == Some(p)
  {
    assert "hardware_authoritative"[0] == 'h' && "daw_authoritative"[0] == 'd' && "one_way_to_daw"[0] == 'o';
    assert "bidirectional"[0] == 'b' && "render_only"[0] == 'r' && "unsupported"[0] == 'u';
  }

  lemma ParameterRoundTrip(p: Parameter)
    ensures ParseParameter(SerializeParameter(p)) == if Finite(p.normalizedValue) then Some(p) else None
  {
    var m := SerializeParameter(p).members;
    PolicyRoundTrip(p.policy);
    FindEach(m);
    assert m[0].key == "id" && m[1].key == "normalized_value" && m[2].key == "policy" && m[3].key == "semantic";
  }

  lemma EntriesRoundTrip(entries: Metadata)
    ensures ParseAll(SerializeEntries(entries), ParseEntry) == Some(entries)
    ensures Collect(entries) == entries
  {
    ParseAllInverts(entries, SerializeEntries(entries), ParseEntry);
    CollectSorted(entries);
  }

  lemma AssetsRoundTrip(assets: seq<Asset>)
    ensures ParseAll(SerializeAssets(assets), ParseAsset) == Some(assets)
  {
    forall i | 0 <= i < |assets|
      ensures ParseAsset(SerializeAsset(assets[i])) == Some(assets[i])
    {
      AssetRoundTrip(assets[i]);
    }
    ParseAllInverts(assets, SerializeAssets(assets), ParseAsset);
  }

  lemma EventsRoundTrip(events: seq<MusicalEvent>)
    ensures ParseAll(SerializeEvents(events), ParseEvent) == Some(KeptEvents(events))
  {
    var items, values := SerializeEvents(events), KeptEvents(events);
    forall i | 0 <= i < |events|
      ensures ParseEvent(items[i]) == Some(values[i])
    {
      EventRoundTrip(events[i]);
    }
    ParseAllInverts(values, items, ParseEvent);
  }

  lemma ParametersRoundTrip(parameters: seq<Parameter>)
    ensures ParseAll(SerializeParameters(parameters), ParseParameter)
         == if FiniteParameters(parameters) then Some(parameters) else None
  {
    var items := SerializeParameters(parameters);
    forall i | 0 <= i < |parameters|
      ensures ParseParameter(items[i]) == if Finite(parameters[i].normalizedValue) then Some(parameters[i]) else None
    {
      ParameterRoundTrip(parameters[i]);
    }
    if FiniteParameters(parameters) {
      var values: seq<FiniteParameter> := parameters;
      assert forall i :: 0 <= i < |values| ==> values[i] == parameters[i];
      ParseAllInverts(values, items, ParseParameter);
    } else {
      var i :| 0 <= i < |parameters| && !Finite(parameters[i].normalizedValue);
      ParseAllFails(items, ParseParameter, i);
    }
  }

  lemma SessionMembers(s: CanonicalSession)
    ensures var j := SerializeSession(s);
            var m := j.members;
            && Get(j, "assets") == Some(m[0].value) && Get(j, "metadata") == Some(m[1].value)
            && Get(j, "midi_events") == Some(m[2].value) && Get(j, "parameters") == Some(m[3].value)
            && Get(j, "revision") == Some(m[4].value) && Get(j, "schema_version") == Some(m[5].value)
            && Get(j, "session_id") == Some(m[6].value) && Get(j, "source_id") == Some(m[7].value)
  {
    assert "session_id"[0] != "parameters"[0] && "revision"[0] != "metadata"[0];
    FindEach(SerializeSession(s).members);
  }

  lemma HeaderRoundTrip(s: CanonicalSession)
    ensures var j := SerializeSession(s);
            && ReadText(j, "session_id") == Some(s.sessionId)
            && ReadText(j, "source_id") == Some(s.sourceId)
            && ReadText(j, "schema_version") == Some(s.schemaVersion)
            && Get(j, "revision") == Some(SerializeRevision(s.revision))
            && Get(j, "metadata") == Some(Object(SerializeEntries(s.metadata)))
  {
    SessionMembers(s);
  }

  lemma MetadataRoundTrip(j: Json, entries: Metadata, maximum: nat)
    requires Get(j, "metadata") == Some(Object(SerializeEntries(entries)))
    ensures ParseMetadata(j, maximum) == if |entries| <= maximum then Some(entries) else None
  {
    EntriesRoundTrip(entries);
  }

  lemma BoundedRoundTrip<B>(j: Json, key: string, maximum: nat, parse: Json -> Option<B>, items: seq<Json>)
    requires Get(j, key) == Some(Array(items))
    ensures ParseBounded(j, key, maximum, parse) == if |items| <= maximum then ParseAll(items, parse) else None
  {
  }

  lemma ArraysRoundTrip(j: Json, s: CanonicalSession, limits: Limits)
    requires Get(j, "assets") == Some(Array(SerializeAssets(s.assets)))
    requires Get(j, "midi_events") == Some(Array(SerializeEvents(s.midiEvents)))
    requires Get(j, "parameters") == Some(Array(SerializeParameters(s.parameters)))
    ensures ParseBounded(j, "assets", limits.assets, ParseAsset)
         == if |s.assets| <= limits.assets then Some(s.assets) else None
    ensures ParseBounded(j, "midi_events", limits.midiEvents, ParseEvent)
         == if |s.midiEvents| <= limits.midiEvents then Some(KeptEvents(s.midiEvents)) else None
    ensures ParseBounded(j, "parameters", limits.parameters, ParseParameter)
         == if |s.parameters| <= limits.parameters && FiniteParameters(s.parameters) then Some(s.parameters) else None
  {
    AssetsRoundTrip(s.assets);
    BoundedRoundTrip(j, "assets", limits.assets, ParseAsset, SerializeAssets(s.assets));
    EventsRoundTrip(s.midiEvents);
    BoundedRoundTrip(j, "midi_events", limits.midiEvents, ParseEvent, SerializeEvents(s.midiEvents));
    ParametersRoundTrip(s.parameters);
    BoundedRoundTrip(j, "parameters", limits.parameters, ParseParameter, SerializeParameters(s.parameters));
  }

  /**
   * What comes back of a session that was serialised: nothing if it exceeds a bound or a parameter is not finite,
   * otherwise everything but the event values that are not finite.
   */
  lemma SerializedSessionParses(s: CanonicalSession, limits: Limits)
    ensures ParseSession(SerializeSession(s), limits)
         == if InBounds(s, limits) && FiniteParameters(s.parameters)
            then Some(KeptSession(s)) else None
  {
    HeaderRoundTrip(s);
    MetadataRoundTrip(SerializeSession(s), s.metadata, limits.metadataEntries);
    RevisionRoundTrip(s.revision);
    SessionMembers(s);
    ArraysRoundTrip(SerializeSession(s), s, limits);
  }

  lemma KeptExactly(events: seq<MusicalEvent>)
    ensures KeptEvents(events) == events <==> FiniteEvents(events)
  {
    var kept := KeptEvents(events);
    if FiniteEvents(events) {
      assert forall i :: 0 <= i < |events| ==> kept[i] == events[i];
    } else {
      var i :| 0 <= i < |events| && events[i].value.Some? && !Finite(events[i].value.value);
      assert kept[i].value.None?;
    }
  }

  /** A session comes back as it was exactly when it is within bounds and all its numbers are finite. */
  lemma SessionRoundTrip(s: CanonicalSession, limits: Limits)
    ensures ParseSession(SerializeSession(s), limits) == Some(s)
            <==> InBounds(s, limits) && FiniteEvents(s.midiEvents) && FiniteParameters(s.parameters)
  {
    SerializedSessionParses(s, limits);
    KeptExactly(s.midiEvents);
  }

  /** Whatever parses is within bounds, and saving it again loads the same session. */
  lemma ParsedSessionIsStable(j: Json, limits: Limits)
    ensures var r := ParseSession(j, limits);
            r.Some? ==> InBounds(r.value, limits) && ParseSession(SerializeSession(r.value), limits) == r
  {
    var r := ParseSession(j, limits);
    if r.Some? {
      ParseMetadataBound(j, limits.metadataEntries);
      ParseBoundedBound(j, "assets", limits.assets, ParseAsset);
      ParseBoundedBound(j, "midi_events", limits.midiEvents, ParseEvent);
      ParseBoundedBound(j, "parameters", limits.parameters, ParseParameter);
      SessionRoundTrip(r.value, limits);
    }
  }

  lemma ParseBoundedBound<B>(j: Json, key: string, maximum: nat, parse: Json -> Option<B>)
    ensures var r := ParseBounded(j, key, maximum, parse); r.Some? ==> |r.value| <= maximum
  {
    match Get(j, key)
    case Some(Array(items)) => ParseAllKeepsLength(items, parse);
    case _ =>
  }

  lemma ParseMetadataBound(j: Json, maximum: nat)
    ensures var r := ParseMetadata(j, maximum); r.Some? ==> |r.value| <= maximum
  {
    match Get(j, "metadata")
    case Some(Object(members)) => ParseAllKeepsLength(members, ParseEntry);
    case _ =>
  }

  // ------------------------------------------------------------------ the trees are canonical

  lemma EventIsCanonical(e: MusicalEvent)
    ensures Canonical(SerializeEvent(e))
  {
    assert KeyBefore("cc", "channel") && KeyBefore("channel", "duration_ticks") && KeyBefore("duration_ticks", "id");
    assert KeyBefore("id", "note") && KeyBefore("note", "tick") && KeyBefore("tick", "track_id");
    assert KeyBefore("track_id", "value") && KeyBefore("value", "velocity");
  }

  lemma RevisionIsCanonical(r: Revision)
    ensures Canonical(SerializeRevision(r))
  {
    assert KeyBefore("daw", "hardware") && KeyBefore("hardware", "session");
  }

  lemma AssetIsCanonical(a: Asset)
    ensures Canonical(SerializeAsset(a))
  {
    assert KeyBefore("bytes", "fingerprint") && KeyBefore("fingerprint", "id") && KeyBefore("id", "required");
    assert KeyBefore("required", "source_path");
  }

  lemma ParameterIsCanonical(p: Parameter)
    ensures Canonical(SerializeParameter(p))
  {
    assert KeyBefore("id", "normalized_value") && KeyBefore("normalized_value", "policy");
    assert KeyBefore("policy", "semantic");
  }

  lemma ArraysAreCanonical(s: CanonicalSession)
    ensures Canonical(Array(SerializeAssets(s.assets))) && Canonical(Array(SerializeEvents(s.midiEvents)))
    ensures Canonical(Array(SerializeParameters(s.parameters))) && Canonical(Object(SerializeEntries(s.metadata)))
  {
    forall i | 0 <= i < |s.assets| ensures Canonical(SerializeAsset(s.assets[i])) {
      AssetIsCanonical(s.assets[i]);
    }
    forall i | 0 <= i < |s.midiEvents| ensures Canonical(SerializeEvent(s.midiEvents[i])) {
      EventIsCanonical(s.midiEvents[i]);
    }
    forall i | 0 <= i < |s.parameters| ensures Canonical(SerializeParameter(s.parameters[i])) {
      ParameterIsCanonical(s.parameters[i]);
    }
  }

  lemma SessionKeysAscend(s: CanonicalSession)
    ensures Ascending(SerializeSession(s).members)
  {
    assert KeyBefore("assets", "metadata") && KeyBefore("metadata", "midi_events");
    assert KeyBefore("midi_events", "parameters");
    assert KeyBefore("parameters", "revision") && KeyBefore("revision", "schema_version");
    assert KeyBefore("schema_version", "session_id") && KeyBefore("session_id", "source_id");
  }

  /** A serialised session is a tree as the library keeps it. */
  lemma SessionIsCanonical(s: CanonicalSession)
    ensures Canonical(SerializeSession(s))
  {
    SessionKeysAscend(s);
    ArraysAreCanonical(s);
    RevisionIsCanonical(s.revision);
  }
}
