/** The `ChamaApp` controller (script.js:1-15 and the engine methods): it holds
    the current session object and works on `localStorage`. Page switching,
    toasts, sounds and confetti are left out; each method returns what it
    would show instead. */
module App {
  import opened Js
  import opened Identity
  import opened Sessions
  import opened Storage
  import opened Links
  import opened Report

  datatype CreateOutcome = InvalidGroupSize | Created(link: string)

  class ChamaApp {
    /** `this.currentSession`. */
    var currentSession: Session?
    /** The browser's `localStorage`. */
    const storage: LocalStorage

    /** `new ChamaApp()` (script.js:2-7): no current session, then `init()` on
        the page's path and fragment at time `now`, which routes, possibly
        loads the linked session, and cleans up old sessions. */
    constructor(storage: LocalStorage, path: string, hash: string, now: int)
      modifies storage
      ensures this.storage == storage
      ensures var route := ParseRoute(path, hash);
        && (route.Home? ==>
              currentSession == null && storage.items == Cleaned(old(storage.items), now))
        && (route.DrawRoute? ==>
              var load := Resolve(old(storage.items), route.sessionId, now);
              && storage.items == Cleaned(AfterResolve(old(storage.items), route.sessionId, now), now)
              && (load.Loaded? ==>
                    currentSession != null && fresh(currentSession) && currentSession.Data() == load.session)
              && (!load.Loaded? ==> currentSession == null))
    {
      this.storage := storage;
      currentSession := null;
      new;
      var route, load := Init(path, hash, now);
    }

    /** `createSession()` (script.js:131-184) with the form's raw inputs, the
        result of `parseInt` on the size field (None for NaN), the id
        `generateSessionId` returned, the page origin and the current time.
        An invalid size changes nothing; otherwise the new session is stored
        under its key, becomes the current session, and its link is returned. */
    method CreateSession(nameInput: string, sizeInput: Option<int>, descriptionInput: string,
                         sessionId: string, origin: string, now: int)
      returns (outcome: CreateOutcome)
      modifies this, storage
      ensures CheckGroupSize(sizeInput).None? ==>
        && outcome == InvalidGroupSize
        && currentSession == old(currentSession)
        && storage.items == old(storage.items)
      ensures CheckGroupSize(sizeInput).Some? ==>
        && outcome == Created(ShareableLink(origin, sessionId))
        && currentSession != null && fresh(currentSession)
        && currentSession.Data() == InitialSession(sessionId, GroupNameOrDefault(nameInput),
             CheckGroupSize(sizeInput).value, Trim(descriptionInput), At(now))
        && storage.items == old(storage.items)[SessionKey(sessionId) := Record(currentSession.Data())]
      ensures CheckGroupSize(sizeInput).Some? ==> Valid(currentSession.Data())
    {
      var groupName := GroupNameOrDefault(nameInput);
      var groupSize := CheckGroupSize(sizeInput);
      var groupDescription := Trim(descriptionInput);
      if groupSize.None? {
        return InvalidGroupSize;
      }
      var session := InitialSession(sessionId, groupName, groupSize.value, groupDescription, At(now));
      storage.SetItem(SessionKey(sessionId), Record(session));
      var shareableLink := ShareableLink(origin, sessionId);
      currentSession := new Session.FromData(session);
      outcome := Created(shareableLink);
    }

    /** `loadDrawPage(sessionId)` (script.js:186-214) at time `now`. */
    method LoadDrawPage(sessionId: string, now: int) returns (outcome: LoadOutcome)
      modifies this, storage
      ensures outcome == Resolve(old(storage.items), sessionId, now)
      ensures storage.items == AfterResolve(old(storage.items), sessionId, now)
      ensures outcome.Loaded? ==>
        currentSession != null && fresh(currentSession) && currentSession.Data() == outcome.session
      ensures !outcome.Loaded? ==> currentSession == old(currentSession)
    {
      var key := SessionKey(sessionId);
      var sessionData := storage.GetItem(key);
      if sessionData.None? || sessionData.value == Corrupt("") {
        return NotFound;
      }
      if sessionData.value.Corrupt? {
        return InvalidData;
      }
      var session := sessionData.value.session;
      if ExpiredOnLoad(session.createdAt, now) {
        storage.RemoveItem(key);
        return Expired;
      }
      currentSession := new Session.FromData(session);
      outcome := Loaded(session);
    }

    /** `drawNumber()` (script.js:238-296) with `signals` the joined
        environment string `getUserFingerprint` hashes, `rand` the value of
        `Math.random()` and `now` the draw's time. The three guards come in
        the source's order; a successful draw splices the pool, pushes the
        record and writes the session back under its key. */
    method DrawNumber(signals: seq<CodeUnit>, rand: Random, now: int) returns (outcome: DrawOutcome)
      modifies currentSession, storage
      ensures currentSession == old(currentSession)
      ensures old(currentSession) == null ==> outcome == NoSession && storage.items == old(storage.items)
      ensures old(currentSession) != null ==>
        var r := DrawStep(old(currentSession.Data()), Fingerprint(signals), rand, now);
        && outcome == r.outcome
        && currentSession.Data() == r.session
        && storage.items == if r.outcome.Drawn?
                            then old(storage.items)[SessionKey(r.session.id) := Record(r.session)]
                            else old(storage.items)
      ensures old(currentSession) != null && Valid(old(currentSession.Data())) ==> Valid(currentSession.Data())
    {
      if currentSession == null {
        return NoSession;
      }
      var session := currentSession;
      ghost var before := session.Data();
      var userFingerprint := UserFingerprint(signals);
      if HasDrawn(session.drawnNumbers, userFingerprint) {
        return AlreadyDrawn;
      }
      if |session.availableNumbers| == 0 {
        return Exhausted;
      }
      var randomIndex := PickIndex(rand, |session.availableNumbers|);
      var drawnNumber := session.availableNumbers[randomIndex];
      session.availableNumbers := RemoveAt(session.availableNumbers, randomIndex);
      session.drawnNumbers := session.drawnNumbers + [DrawRecord(drawnNumber, userFingerprint, now)];
      storage.SetItem(SessionKey(session.id), Record(session.Data()));
      outcome := Drawn(drawnNumber);
      if Valid(before) {
        DrawPreservesValid(before, userFingerprint, rand, now);
      }
    }

    /** `exportResults()` (script.js:399-415) without the download: the document
        for the current session, whose progress field reads back as the number
        of draws and the group size. */
    method ExportResults() returns (data: Option<ExportData>)
      ensures currentSession == null <==> data.None?
      ensures data.Some? ==> data.value == Export(currentSession.Data())
      ensures data.Some? ==>
        ParseProgress(data.value.progress) == Some((|currentSession.drawnNumbers|, currentSession.groupSize))
    {
      if currentSession == null {
        return None;
      }
      data := Some(Export(currentSession.Data()));
    }

    /** `cleanupOldSessions()` (script.js:652-670) at time `now`: visits every key
        of the store once, in any order, and removes each session key whose
        record does not parse or is more than a day old. */
    method CleanupOldSessions(now: int)
      modifies storage
      ensures storage.items == Cleaned(old(storage.items), now)
    {
      ghost var initial := storage.items;
      var keys := storage.items.Keys;
      while keys != {}
        invariant keys <= initial.Keys
        invariant storage.items == CleanedExcept(initial, now, keys)
        decreases keys
      {
        var key :| key in keys;
        if StartsWith(key, SessionKeyPrefix) {
          match storage.items[key] {
            case Corrupt(_) =>
              storage.RemoveItem(key);
            case Record(session) =>
              if StaleOnCleanup(session.createdAt, now) {
                storage.RemoveItem(key);
              }
          }
        }
        keys := keys - {key};
      }
    }

    /** `checkURL()` (script.js:114-124) for the page's path and fragment: the
        draw route loads the session named in the fragment. */
    method CheckURL(path: string, hash: string, now: int) returns (route: Route, load: Option<LoadOutcome>)
      modifies this, storage
      ensures route == ParseRoute(path, hash)
      ensures route.Home? ==>
        load.None? && currentSession == old(currentSession) && storage.items == old(storage.items)
      ensures route.DrawRoute? ==>
        && load == Some(Resolve(old(storage.items), route.sessionId, now))
        && storage.items == AfterResolve(old(storage.items), route.sessionId, now)
      ensures route.DrawRoute? && load.value.Loaded? ==>
        currentSession != null && fresh(currentSession) && currentSession.Data() == load.value.session
      ensures route.DrawRoute? && !load.value.Loaded? ==> currentSession == old(currentSession)
    {
      route := ParseRoute(path, hash);
      if route.DrawRoute? {
        var outcome := LoadDrawPage(route.sessionId, now);
        load := Some(outcome);
      } else {
        load := None;
      }
    }

    /** `init()` (script.js:9-15) without the theme and the form preview:
        route first, then clean up old sessions. */
    method Init(path: string, hash: string, now: int) returns (route: Route, load: Option<LoadOutcome>)
      modifies this, storage
      ensures route == ParseRoute(path, hash)
      ensures route.Home? ==> load.None? && storage.items == Cleaned(old(storage.items), now)
      ensures route.DrawRoute? ==>
        && load == Some(Resolve(old(storage.items), route.sessionId, now))
        && storage.items == Cleaned(AfterResolve(old(storage.items), route.sessionId, now), now)
      ensures route.Home? ==> currentSession == old(currentSession)
      ensures route.DrawRoute? && load.value.Loaded? ==>
        currentSession != null && fresh(currentSession) && currentSession.Data() == load.value.session
      ensures route.DrawRoute? && !load.value.Loaded? ==> currentSession == old(currentSession)
    {
      route, load := CheckURL(path, hash, now);
      CleanupOldSessions(now);
    }
  }
}
