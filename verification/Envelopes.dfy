/** The checksummed envelope of a snapshot file, whatever its payload is. */
module Envelopes {
  import opened Bytes
  import opened Doubles
  import opened Json
  import opened JsonReading
  import opened SnapshotProtocol
  import opened Wrappers
  import Fnv1a

  /** The JSON library: two ways of printing and one of reading. `parse` is None where the library throws. */
  datatype Library = Library(
    compact: Json -> ByteString, indented: Json -> ByteString, parse: ByteString -> Option<Json>)

  const NEWLINE: Byte := 10

  function Integrity(checksum: string): Json {
    Object([
      Member("algorithm", Text("fnv1a64-corruption-check")),
      Member("value", Text(checksum))])
  }

  function Envelope(integrity: Json, payload: Json): Json {
    Object([
      Member("envelope_version", Integer(1)),
      Member("format", Text("ubridge.session-snapshot")),
      Member("integrity", integrity),
      Member("payload", payload)])
  }

  function Checksum(lib: Library, payload: Json): string { Fnv1a.ChecksumText(lib.compact(payload)) }

  function Seal(lib: Library, payload: Json): Json {
    Envelope(Integrity(Checksum(lib, payload)), payload)
  }

  function Printed(lib: Library, tree: Json): ByteString { lib.indented(tree) + [NEWLINE] }

  /** The text of a snapshot file. */
  function SealedText(lib: Library, payload: Json): ByteString { Printed(lib, Seal(lib, payload)) }

  /** The checks on an envelope, and what is inside. */
  function Unseal(lib: Library, envelope: Json): Option<Json> {
    if ReadText(envelope, "format") != Some("ubridge.session-snapshot") then None
    else if ReadInt32(envelope, "envelope_version", 0) != Some(1) then None
    else
      match (Get(envelope, "payload"), Get(envelope, "integrity"))
      case (Some(payload), Some(integrity)) =>
        if !integrity.Object? then None
        else if ReadText(integrity, "algorithm") != Some("fnv1a64-corruption-check") then None
        else if ReadText(integrity, "value") != Some(Checksum(lib, payload)) then None
        else Some(payload)
      case _ => None
  }

  /** Reading a snapshot file, given how the payload is parsed. */
  function OpenText<S>(lib: Library, maximumBytes: nat, parse: Json -> Option<S>, file: ByteString): Option<S> {
    if |file| == 0 || |file| > maximumBytes then None
    else
      match lib.parse(file)
      case None => None
      case Some(envelope) =>
        match Unseal(lib, envelope)
        case None => None
        case Some(payload) => parse(payload)
  }

  // ------------------------------------------------------------------ opening what was sealed

  lemma EnvelopeMembers(integrity: Json, payload: Json)
    ensures var e := Envelope(integrity, payload);
            && ReadText(e, "format") == Some("ubridge.session-snapshot")
            && ReadInt32(e, "envelope_version", 0) == Some(1)
            && Get(e, "integrity") == Some(integrity) && Get(e, "payload") == Some(payload)
  {
    var m := Envelope(integrity, payload).members;
    FindEach(m);
    assert m[0].key == "envelope_version" && m[1].key == "format" && m[2].key == "integrity" && m[3].key == "payload";
  }

  lemma IntegrityMembers(checksum: string)
    ensures ReadText(Integrity(checksum), "algorithm") == Some("fnv1a64-corruption-check")
    ensures ReadText(Integrity(checksum), "value") == Some(checksum)
  {
    var m := Integrity(checksum).members;
    FindEach(m);
    assert m[0].key == "algorithm" && m[1].key == "value";
  }

  /** An envelope opens exactly when its integrity value is the checksum of the payload it holds. */
  lemma UnsealsExactly(lib: Library, checksum: string, payload: Json)
    ensures Unseal(lib, Envelope(Integrity(checksum), payload))
         == if checksum == Checksum(lib, payload) then Some(payload) else None
  {
    EnvelopeMembers(Integrity(checksum), payload);
    IntegrityMembers(checksum);
  }

  /** The version member converts to 1, once narrowed to 32 bits. */
  predicate SaysVersionOne(version: Option<Json>) {
    match version
    case Some(Integer(n)) => n % 4294967296 == 1
    case Some(Real(d)) => Truncate(d) % 4294967296 == 1
    case Some(Bool(flag)) => flag
    case _ => false
  }

  /** Of all trees exactly the snapshots of the first version with a true checksum open, to the payload they hold. */
  lemma OnlySnapshotsOpen(lib: Library, envelope: Json, payload: Json)
    ensures Unseal(lib, envelope) == Some(payload) <==>
              && Get(envelope, "format") == Some(Text("ubridge.session-snapshot"))
              && SaysVersionOne(Get(envelope, "envelope_version"))
              && Get(envelope, "payload") == Some(payload)
              && Get(envelope, "integrity").Some?
              && var integrity := Get(envelope, "integrity").value;
                 && Get(integrity, "algorithm") == Some(Text("fnv1a64-corruption-check"))
                 && Get(integrity, "value") == Some(Text(Fnv1a.ChecksumText(lib.compact(payload))))
  {
    VersionReads(envelope);
    assert |Fnv1a.ChecksumText(lib.compact(payload))| == 16;
  }

  lemma VersionReads(envelope: Json)
    ensures ReadInt32(envelope, "envelope_version", 0) == Some(1)
            <==> SaysVersionOne(Get(envelope, "envelope_version"))
  {
  }

  /** A payload whose text has one byte changed, under the integrity value of the original, never opens. */
  lemma DamagedPayloadIsRejected(lib: Library, payload: Json, damaged: Json, i: nat)
    requires i < |lib.compact(payload)| == |lib.compact(damaged)|
    requires lib.compact(damaged) == lib.compact(payload)[i := lib.compact(damaged)[i]]
    requires lib.compact(damaged)[i] != lib.compact(payload)[i]
    ensures Unseal(lib, Envelope(Integrity(Checksum(lib, payload)), damaged)) == None
  {
    UnsealsExactly(lib, Checksum(lib, payload), damaged);
    Fnv1a.SingleByteChangeIsDetected(lib.compact(payload), i, lib.compact(damaged)[i]);
  }

  // ------------------------------------------------------------------ the file format

  function SnapshotFormat<S>(lib: Library, id: S -> string, validId: string -> bool, serialize: S -> Json,
                             parse: Json -> Option<S>, maximumBytes: nat, kept: S -> S): Format<S>
  {
    Format(id, validId, s => SealedText(lib, serialize(s)), maximumBytes,
           b => OpenText(lib, maximumBytes, parse, b), kept)
  }

  /**
   * What is assumed of the JSON library: it reads back every object it prints, and what it makes of the beginning
   * of such a text is nothing, or (the final newline missing) the same object.
   */
  ghost predicate Faithful(lib: Library) {
    && (forall j: Json :: j.Object? && Canonical(j) ==> lib.parse(Printed(lib, j)) == Some(j))
    && forall j: Json, n: nat :: j.Object? && Canonical(j) && n <= |Printed(lib, j)| ==>
         lib.parse(Printed(lib, j)[..n]) in {None, Some(j)}
  }

  lemma IntegrityIsCanonical(checksum: string)
    ensures Canonical(Integrity(checksum))
  {
    assert KeyBefore("algorithm", "value");
  }

  lemma EnvelopeIsCanonical(integrity: Json, payload: Json)
    requires Canonical(integrity) && Canonical(payload)
    ensures Canonical(Envelope(integrity, payload))
  {
    assert KeyBefore("envelope_version", "format") && KeyBefore("format", "integrity");
    assert KeyBefore("integrity", "payload");
  }

  lemma SealIsCanonical(lib: Library, payload: Json)
    requires Canonical(payload)
    ensures Canonical(Seal(lib, payload)) && Seal(lib, payload).Object?
  {
    IntegrityIsCanonical(Checksum(lib, payload));
    EnvelopeIsCanonical(Integrity(Checksum(lib, payload)), payload);
  }

  /** A session is read back from its snapshot exactly as from its payload, as long as the text fits. */
  lemma SnapshotRoundTrip<S>(lib: Library, payload: Json, parse: Json -> Option<S>, maximumBytes: nat)
    requires Faithful(lib) && Canonical(payload)
    ensures var text := SealedText(lib, payload);
            OpenText(lib, maximumBytes, parse, text) == if |text| <= maximumBytes then parse(payload) else None
  {
    SealIsCanonical(lib, payload);
    UnsealsExactly(lib, Checksum(lib, payload), payload);
  }

  /** The beginning of a snapshot text opens as what its payload parses as, or not at all. */
  lemma TornTextOpens<S>(lib: Library, payload: Json, parse: Json -> Option<S>, maximumBytes: nat, n: nat)
    requires Faithful(lib) && Canonical(payload)
    requires n <= |SealedText(lib, payload)|
    ensures OpenText(lib, maximumBytes, parse, SealedText(lib, payload)[..n]) in {None, parse(payload)}
  {
    SealIsCanonical(lib, payload);
    UnsealsExactly(lib, Checksum(lib, payload), payload);
    assert lib.parse(Printed(lib, Seal(lib, payload))[..n]) in {None, Some(Seal(lib, payload))};
  }

  /** The beginning of a snapshot opens as what is kept of the session it was written for, or not at all. */
  lemma SnapshotFormatIsTornSafe<S(!new)>(lib: Library, id: S -> string, validId: string -> bool,
                                          serialize: S -> Json, parse: Json -> Option<S>, maximumBytes: nat,
                                          kept: S -> S)
    requires Faithful(lib)
    requires forall s: S :: Canonical(serialize(s)) && parse(serialize(s)) in {None, Some(kept(s))}
    ensures TornSafe(SnapshotFormat(lib, id, validId, serialize, parse, maximumBytes, kept))
  {
    var f := SnapshotFormat(lib, id, validId, serialize, parse, maximumBytes, kept);
    forall s: S, n: nat | n <= |f.make(s)|
      ensures f.read(f.make(s)[..n]) in {None, Some(kept(s))}
    {
      TornTextOpens(lib, serialize(s), parse, maximumBytes, n);
    }
  }
}
