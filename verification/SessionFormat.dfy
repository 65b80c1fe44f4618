/** The file format of the session store, and what it promises of the snapshots written in it. */
module SessionFormat {
  import opened Envelopes
  import opened Json
  import opened SessionCodec
  import opened SessionStore
  import opened SnapshotProtocol
  import opened Wrappers

  function StoreFormat(lib: Library, limits: Limits): Format<CanonicalSession> {
    SnapshotFormat(lib, (s: CanonicalSession) => s.sessionId, id => ValidSessionId(id),
                   (s: CanonicalSession) => SerializeSession(s), j => ParseSession(j, limits), limits.snapshotBytes,
                   (s: CanonicalSession) => KeptSession(s))
  }

  /** A torn snapshot of the session store never opens as anything but what is kept of its session. */
  lemma StoreFormatIsTornSafe(lib: Library, limits: Limits)
    requires Faithful(lib)
    ensures TornSafe(StoreFormat(lib, limits))
  {
    forall s: CanonicalSession
      ensures Canonical(SerializeSession(s))
      ensures ParseSession(SerializeSession(s), limits) in {None, Some(KeptSession(s))}
    {
      SessionIsCanonical(s);
      SerializedSessionParses(s, limits);
    }
    SnapshotFormatIsTornSafe(lib, (s: CanonicalSession) => s.sessionId, id => ValidSessionId(id),
                             (s: CanonicalSession) => SerializeSession(s), j => ParseSession(j, limits),
                             limits.snapshotBytes, (s: CanonicalSession) => KeptSession(s));
  }

  /** Within the bounds a loaded session must meet, its parameters finite, and not too long when printed. */
  predicate Savable(lib: Library, limits: Limits, s: CanonicalSession) {
    && InBounds(s, limits) && FiniteParameters(s.parameters)
    && |SealedText(lib, SerializeSession(s))| <= limits.snapshotBytes
  }

  /** A session passes every check of a save exactly when it is savable; its event values are not checked. */
  lemma SavableExactly(lib: Library, limits: Limits, s: CanonicalSession)
    requires Faithful(lib)
    ensures var f := StoreFormat(lib, limits);
            Accepts(f, s) && f.read(f.make(s)).Some? <==> Savable(lib, limits, s)
  {
    SessionIsCanonical(s);
    SnapshotRoundTrip(lib, SerializeSession(s), j => ParseSession(j, limits), limits.snapshotBytes);
    SerializedSessionParses(s, limits);
  }

  /** Once a save of the session store has returned true, loading always succeeds, and never with an older session. */
  lemma SavedSessionsSurvive(lib: Library, limits: Limits, steps: seq<Step<CanonicalSession>>)
    requires Faithful(lib)
    ensures Durable(StoreFormat(lib, limits), Run(StoreFormat(lib, limits), Initial(), steps))
  {
    StoreFormatIsTornSafe(lib, limits);
    AcknowledgedSavesSurvive(StoreFormat(lib, limits), steps);
  }

  /** The same of the store object: whatever saves it was asked for, and however they went. */
  lemma StoreKeepsSessions(store: DurableSessionStore<CanonicalSession>, lib: Library, limits: Limits, id: string)
    requires Faithful(lib) && store.format == StoreFormat(lib, limits) && store.Valid()
    ensures Durable(StoreFormat(lib, limits), store.Directory(id))
  {
    StoreFormatIsTornSafe(lib, limits);
    store.SavesSurvive(id);
  }

  /**
   * What an uninterrupted save gives back: the session without its infinite and NaN event values. That is the
   * session itself exactly if it has none.
   */
  lemma SaveGivesBackExactly(lib: Library, limits: Limits, s: State<CanonicalSession>, session: CanonicalSession)
    requires Faithful(lib) && s.phase.Idle? && Savable(lib, limits, session)
    ensures var f := StoreFormat(lib, limits);
            var t := Run(f, s, FullSave(f, session));
            && t.acknowledged == |t.saved| == |s.saved| + 1
            && Load(f, t.disk) == Some(Loaded(KeptSession(session), FromCurrent, false, |t.saved|))
            && (Load(f, t.disk).value.session == session <==> FiniteEvents(session.midiEvents))
  {
    StoreFormatIsTornSafe(lib, limits);
    SavableExactly(lib, limits, session);
    FullSaveEffect(StoreFormat(lib, limits), s, session);
    KeptExactly(session.midiEvents);
  }

  /** In the store's format an empty file opens as nothing, so this is exactly when loading can go back. */
  lemma StoreGoesBackExactly(lib: Library, limits: Limits, s: State<CanonicalSession>, session: CanonicalSession)
    requires Inv(StoreFormat(lib, limits), s) && s.phase.Idle? && Accepts(StoreFormat(lib, limits), session)
    ensures var f := StoreFormat(lib, limits);
            CanGoBack(f, s, session) <==> s.disk.current.Absent? && Opens(f, s.disk.pending).Some?
  {
    GoesBackExactly(StoreFormat(lib, limits), s, session);
  }
}
