/** Session documents that leave members out, or hold other values than the store writes. */
module SessionDocuments {
  import opened Doubles
  import opened Json
  import opened JsonReading
  import opened Revisions
  import opened SessionCodec
  import opened WordArithmetic
  import opened Wrappers

  // ------------------------------------------------------------------ names

  /** An identity names a file: letters, digits and the three marks `-`, `.` and `_`, and never a directory. */
  lemma SessionIdsExactly(id: string)
    ensures ValidSessionId(id) <==>
              && 1 <= |id| <= 128 && id != "." && id != ".."
              && forall i :: 0 <= i < |id| ==>
                   var code := id[i] as int;
                   code in {45, 46, 95} || 48 <= code <= 57 || 65 <= code <= 90 || 97 <= code <= 122
    ensures ValidSessionId(id) ==> '/' !in id && '\\' !in id && ':' !in id && ' ' !in id
  {
    assert 'a' as int == 97 && 'z' as int == 122 && 'A' as int == 65 && 'Z' as int == 90;
    assert '0' as int == 48 && '9' as int == 57 && '-' as int == 45 && '.' as int == 46 && '_' as int == 95;
  }

  /** Every policy under its name, and no other name is one. */
  lemma PolicyNamesExactly(name: string, p: SyncPolicy)
    ensures ParsePolicy(name) == Some(p) <==> name == PolicyName(p)
    ensures PolicyName(HardwareAuthoritative) == "hardware_authoritative"
    ensures PolicyName(DawAuthoritative) == "daw_authoritative"
    ensures PolicyName(OneWayToDaw) == "one_way_to_daw" && PolicyName(OneWayToHardware) == "one_way_to_hardware"
    ensures PolicyName(Bidirectional) == "bidirectional" && PolicyName(RenderOnly) == "render_only"
    ensures PolicyName(Unsupported) == "unsupported"
  {
    PolicyRoundTrip(p);
  }

  // ------------------------------------------------------------------ members left out

  /** The members of an object that are not under one of these keys. */
  function Without(members: seq<Member>, gone: set<string>): seq<Member> {
    if members == [] then []
    else (if members[0].key in gone then [] else [members[0]]) + Without(members[1..], gone)
  }

  lemma {:induction false} FindWithout(members: seq<Member>, gone: set<string>, key: string)
    ensures Find(Without(members, gone), key) == if key in gone then None else Find(members, key)
  {
    if members != [] {
      FindWithout(members[1..], gone, key);
      var rest := Without(members[1..], gone);
      assert members[0].key !in gone ==> ([members[0]] + rest)[1..] == rest;
      assert members[0].key in gone ==> [] + rest == rest;
    }
  }

  lemma {:induction false} AllFindWithout(members: seq<Member>, gone: set<string>)
    ensures forall key :: Find(Without(members, gone), key) == if key in gone then None else Find(members, key)
  {
    forall key
      ensures Find(Without(members, gone), key) == if key in gone then None else Find(members, key)
    {
      FindWithout(members, gone, key);
    }
  }

  function TextOr(gone: set<string>, key: string, text: string): string { if key in gone then "" else text }

  function IntegerOr(gone: set<string>, key: string, absent: int, n: int): int { if key in gone then absent else n }

  lemma {:induction false} TextWithout(m: seq<Member>, gone: set<string>, key: string)
    ensures ReadText(Object(Without(m, gone)), key) == if key in gone then Some("") else ReadText(Object(m), key)
  {
    FindWithout(m, gone, key);
  }

  lemma {:induction false} Int64Without(m: seq<Member>, gone: set<string>, key: string)
    ensures ReadInt64(Object(Without(m, gone)), key) == if key in gone then Some(0) else ReadInt64(Object(m), key)
  {
    FindWithout(m, gone, key);
  }

  lemma {:induction false} Int32Without(m: seq<Member>, gone: set<string>, key: string, absent: Int32)
    ensures ReadInt32(Object(Without(m, gone)), key, absent)
         == if key in gone then Some(absent) else ReadInt32(Object(m), key, absent)
  {
    FindWithout(m, gone, key);
  }

  lemma {:induction false} OptionsWithout(m: seq<Member>, gone: set<string>, cc: string, value: string)
    ensures ReadOptionalInt32(Object(Without(m, gone)), cc)
         == if cc in gone then Some(None) else ReadOptionalInt32(Object(m), cc)
    ensures ReadOptionalReal(Object(Without(m, gone)), value)
         == if value in gone then Some(None) else ReadOptionalReal(Object(m), value)
  {
    FindWithout(m, gone, cc);
    FindWithout(m, gone, value);
  }

  lemma EventReads(e: MusicalEvent)
    ensures var j := SerializeEvent(e);
            && ReadText(j, "id") == Some(e.id) && ReadText(j, "track_id") == Some(e.trackId)
            && ReadInt64(j, "tick") == Some(e.tick) && ReadInt64(j, "duration_ticks") == Some(e.durationTicks)
            && ReadInt32(j, "channel", 0) == Some(e.channel) && ReadInt32(j, "note", -1) == Some(e.note)
            && ReadInt32(j, "velocity", -1) == Some(e.velocity) && ReadOptionalInt32(j, "cc") == Some(e.cc)
            && ReadOptionalReal(j, "value") == Some(Kept(e).value)
  {
    EventMembers(e);
  }

  /** An event without some of its members: no texts, zero times and channel, and -1 for note and velocity. */
  lemma SparseEvent(e: MusicalEvent, gone: set<string>)
    ensures ParseEvent(Object(Without(SerializeEvent(e).members, gone)))
         == Some(MusicalEvent(
              TextOr(gone, "id", e.id), TextOr(gone, "track_id", e.trackId),
              IntegerOr(gone, "tick", 0, e.tick), IntegerOr(gone, "duration_ticks", 0, e.durationTicks),
              IntegerOr(gone, "channel", 0, e.channel), IntegerOr(gone, "note", -1, e.note),
              IntegerOr(gone, "velocity", -1, e.velocity),
              if "cc" in gone then None else e.cc, if "value" in gone then None else Kept(e).value))
  {
    var m := SerializeEvent(e).members;
    EventReads(e);
    TextWithout(m, gone, "id");
    TextWithout(m, gone, "track_id");
    Int64Without(m, gone, "tick");
    Int64Without(m, gone, "duration_ticks");
    Int32Without(m, gone, "channel", 0);
    Int32Without(m, gone, "note", -1);
    Int32Without(m, gone, "velocity", -1);
    OptionsWithout(m, gone, "cc", "value");
  }

  /** An asset without some of its members; one that does not say whether it is required is required. */
  lemma SparseAsset(a: Asset, gone: set<string>)
    ensures ParseAsset(Object(Without(SerializeAsset(a).members, gone)))
         == Some(Asset(
              TextOr(gone, "id", a.id), TextOr(gone, "source_path", a.sourcePath),
              TextOr(gone, "fingerprint", a.fingerprint), IntegerOr(gone, "bytes", 0, a.bytes),
              "required" in gone || a.required))
  {
    AssetMembers(a);
    AllFindWithout(SerializeAsset(a).members, gone);
  }

  lemma {:induction false} AssetMembers(a: Asset)
    ensures var m := SerializeAsset(a).members;
            && Find(m, "bytes") == Some(m[0].value) && Find(m, "fingerprint") == Some(m[1].value)
            && Find(m, "id") == Some(m[2].value) && Find(m, "required") == Some(m[3].value)
            && Find(m, "source_path") == Some(m[4].value)
  {
    assert "source_path"[0] != "fingerprint"[0];
    FindEach(SerializeAsset(a).members);
  }

  /** A parameter without a policy is none; otherwise it is unnamed, or zero. */
  lemma SparseParameter(p: FiniteParameter, gone: set<string>)
    ensures ParseParameter(Object(Without(SerializeParameter(p).members, gone)))
         == if "policy" in gone then None
            else Some(Parameter(TextOr(gone, "id", p.id), TextOr(gone, "semantic", p.semantic),
                                if "normalized_value" in gone then 0 else p.normalizedValue, p.policy))
  {
    var m := SerializeParameter(p).members;
    PolicyRoundTrip(p.policy);
    FindEach(m);
    assert m[0].key == "id" && m[1].key == "normalized_value" && m[2].key == "policy" && m[3].key == "semantic";
    AllFindWithout(m, gone);
  }

  /** A revision without one of its counters has it at zero. */
  lemma SparseRevision(r: Revision, gone: set<string>)
    ensures ParseRevision(Object(Without(SerializeRevision(r).members, gone)))
         == Some(Revision(IntegerOr(gone, "session", 0, r.session), IntegerOr(gone, "hardware", 0, r.hardware),
                          IntegerOr(gone, "daw", 0, r.daw)))
  {
    var m := SerializeRevision(r).members;
    FindEach(m);
    assert m[0].key == "daw" && m[1].key == "hardware" && m[2].key == "session";
    AllFindWithout(m, gone);
  }

  /** What a session cannot do without. */
  const NEEDED: set<string> := {"session_id", "schema_version", "revision", "assets", "midi_events", "parameters"}

  lemma {:induction false} MissingMember(j: Json, limits: Limits, key: string)
    requires key in NEEDED && Get(j, key) == None
    ensures ParseSession(j, limits) == None
  {
  }

  lemma {:induction false} ParsesWith(j: Json, s: CanonicalSession, limits: Limits, source: string, metadata: Metadata)
    requires InBounds(s, limits) && FiniteParameters(s.parameters)
    requires ReadText(j, "session_id") == Some(s.sessionId) && ReadText(j, "schema_version") == Some(s.schemaVersion)
    requires ReadText(j, "source_id") == Some(source)
    requires Get(j, "revision") == Some(SerializeRevision(s.revision))
    requires ParseMetadata(j, limits.metadataEntries) == Some(metadata)
    requires Get(j, "assets") == Some(Array(SerializeAssets(s.assets)))
    requires Get(j, "midi_events") == Some(Array(SerializeEvents(s.midiEvents)))
    requires Get(j, "parameters") == Some(Array(SerializeParameters(s.parameters)))
    ensures ParseSession(j, limits) == Some(KeptSession(s).(sourceId := source, metadata := metadata))
  {
    RevisionRoundTrip(s.revision);
    ArraysRoundTrip(j, s, limits);
  }

  /** A session may leave out its source and its metadata, and nothing else. */
  lemma SparseSession(s: CanonicalSession, limits: Limits, gone: set<string>)
    requires InBounds(s, limits) && FiniteParameters(s.parameters)
    ensures ParseSession(Object(Without(SerializeSession(s).members, gone)), limits)
         == if gone !! NEEDED
            then Some(KeptSession(s).(sourceId := TextOr(gone, "source_id", s.sourceId),
                                      metadata := if "metadata" in gone then [] else s.metadata))
            else None
  {
    var j := Object(Without(SerializeSession(s).members, gone));
    AllFindWithout(SerializeSession(s).members, gone);
    if gone !! NEEDED {
      assert forall key :: key in NEEDED ==> key !in gone;
      SessionMembers(s);
      if "metadata" !in gone {
        MetadataRoundTrip(j, s.metadata, limits.metadataEntries);
      }
      ParsesWith(j, s, limits, TextOr(gone, "source_id", s.sourceId),
                 if "metadata" in gone then [] else s.metadata);
    } else {
      var key :| key in gone && key in NEEDED;
      MissingMember(j, limits, key);
    }
  }

  // ------------------------------------------------------------------ values of another kind

  lemma {:induction false} AllParsed<A, B>(items: seq<A>, parse: A -> Option<B>, i: nat)
    requires ParseAll(items, parse).Some? && i < |items|
    ensures |ParseAll(items, parse).value| == |items| && parse(items[i]) == Some(ParseAll(items, parse).value[i])
  {
    ParseAllKeepsLength(items, parse);
    if i < |items| - 1 {
      ParseAllKeepsLength(items[..|items| - 1], parse);
      AllParsed(items[..|items| - 1], parse, i);
    }
  }

  /** What parses as a session is an object with a revision object, three arrays and, if any, an object of texts. */
  lemma {:induction false} ParsedSessionHasShape(j: Json, limits: Limits)
    requires ParseSession(j, limits).Some?
    ensures j.Object? && Get(j, "revision").Some? && Get(j, "revision").value.Object?
    ensures forall key :: key in {"assets", "midi_events", "parameters"} ==>
              Get(j, key).Some? && Get(j, key).value.Array?
              && forall i :: 0 <= i < |Get(j, key).value.items| ==> Get(j, key).value.items[i].Object?
    ensures Get(j, "metadata").Some? ==>
              Get(j, "metadata").value.Object?
              && forall i :: 0 <= i < |Get(j, "metadata").value.members| ==>
                   Get(j, "metadata").value.members[i].value.Text?
  {
    ItemsAreObjects(j, "assets", limits.assets, ParseAsset);
    ItemsAreObjects(j, "midi_events", limits.midiEvents, ParseEvent);
    ItemsAreObjects(j, "parameters", limits.parameters, ParseParameter);
    match Get(j, "metadata")
    case Some(Object(members)) =>
      forall i | 0 <= i < |members|
        ensures members[i].value.Text?
      {
        AllParsed(members, ParseEntry, i);
      }
    case _ =>
  }

  lemma {:induction false} ItemsAreObjects<B>(j: Json, key: string, maximum: nat, parse: Json -> Option<B>)
    requires ParseBounded(j, key, maximum, parse).Some?
    requires forall item :: parse(item).Some? ==> item.Object?
    ensures Get(j, key).Some? && Get(j, key).value.Array?
    ensures forall i :: 0 <= i < |Get(j, key).value.items| ==> Get(j, key).value.items[i].Object?
  {
    var items := Get(j, key).value.items;
    forall i | 0 <= i < |items|
      ensures items[i].Object?
    {
      AllParsed(items, parse, i);
    }
  }

  /** The integer that a number, or a truth value, stands for. */
  function Denoted(v: Json): int
    requires v.Integer? || v.Real? || v.Bool?
  {
    match v
    case Integer(n) => n
    case Real(d) => Truncate(d)
    case Bool(flag) => if flag then 1 else 0
  }

  lemma WideIsCongruent(n: int)
    ensures (n % WORD - n) % 18446744073709551616 == 0
    ensures (NarrowTo64(n) - n) % 18446744073709551616 == 0
  {
  }

  lemma SmallIsCongruent(n: int)
    ensures (NarrowTo32(n) - n) % 4294967296 == 0
  {
  }

  /** Numbers serve as integers of any width, wrapped to it; truth values serve as small ones; nothing else does. */
  lemma {:induction false} IntegersReadExactly(m: seq<Member>, key: string, v: Json, absent: Int32)
    requires Find(m, key) == Some(v)
    ensures var word, wide, small := ReadWord64(Object(m), key), ReadInt64(Object(m), key),
                                     ReadInt32(Object(m), key, absent);
            && (word.Some? <==> v.Integer? || v.Real?) && (wide.Some? <==> v.Integer? || v.Real?)
            && (small.Some? <==> v.Integer? || v.Real? || v.Bool?)
            && (word.Some? ==> (word.value - Denoted(v)) % 18446744073709551616 == 0)
            && (wide.Some? ==> (wide.value - Denoted(v)) % 18446744073709551616 == 0)
            && (small.Some? ==> (small.value - Denoted(v)) % 4294967296 == 0)
  {
    if v.Integer? || v.Real? || v.Bool? {
      WideIsCongruent(Denoted(v));
      SmallIsCongruent(Denoted(v));
    }
  }

  /** Texts serve as texts only, truth values as such, and numbers as doubles. */
  lemma {:induction false} OthersReadExactly(m: seq<Member>, key: string, v: Json, absent: bool)
    requires Find(m, key) == Some(v)
    ensures ReadText(Object(m), key) == if v.Text? then Some(v.text) else None
    ensures ReadBool(Object(m), key, absent) == if v.Bool? then Some(v.flag) else None
    ensures ReadReal(Object(m), key) == if v.Real? then Some(v.quantity)
                                        else if v.Integer? then Some(Nearest(v.number)) else None
  {
  }

  /** An optional member may be null, and is otherwise read like any other of its kind. */
  lemma {:induction false} OptionsReadExactly(m: seq<Member>, key: string, v: Json, absent: Int32)
    requires Find(m, key) == Some(v)
    ensures ReadOptionalInt32(Object(m), key)
         == if v.Null? then Some(None)
            else if ReadInt32(Object(m), key, absent).None? then None
            else Some(ReadInt32(Object(m), key, absent))
    ensures ReadOptionalReal(Object(m), key)
         == if v.Null? then Some(None)
            else if ReadReal(Object(m), key).None? then None
            else Some(Some(ReadReal(Object(m), key).value))
  {
  }
}
