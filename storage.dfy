/** The browser's `localStorage` as the draw engine uses it: session records
    under `chama_session_<id>`, the 24-hour expiry tests of `loadDrawPage`
    (script.js:198-206) and `cleanupOldSessions` (script.js:652-670), and what
    each of them leaves in the store. */
module Storage {
  import opened Js
  import opened Sessions

  /** A stored value as the engine sees it after `JSON.parse`: a session record,
      or text that the parser rejects or that parses to `null`. */
  datatype Entry = Record(session: SessionData) | Corrupt(raw: string)

  const SessionKeyPrefix: string := "chama_session_"

  /** `chama_session_${id}`. */
  function SessionKey(id: string): (key: string)
    ensures StartsWith(key, SessionKeyPrefix) && key[|SessionKeyPrefix|..] == id
  {
    SessionKeyPrefix + id
  }

  /** `localStorage`: a string-keyed store whose methods update it in place. */
  class LocalStorage {
    var items: map<string, Entry>

    constructor(initial: map<string, Entry>)
      ensures items == initial
    {
      items := initial;
    }

    /** `getItem(key)`: the stored value, or nothing (`null`). */
    function GetItem(key: string): (r: Option<Entry>)
      reads this
      ensures r.Some? <==> key in items
      ensures r.Some? ==> r.value == items[key]
    {
      if key in items then Some(items[key]) else None
    }

    /** `setItem(key, value)`: adds or overwrites one key. */
    method SetItem(key: string, value: Entry)
      modifies this
      ensures items == old(items)[key := value]
    {
      items := items[key := value];
    }

    /** `removeItem(key)`: removes one key, if present. */
    method RemoveItem(key: string)
      modifies this
      ensures items == old(items) - {key}
    {
      items := items - {key};
    }
  }

  // ---------------------------------------------------------------------------
  // Expiry
  // ---------------------------------------------------------------------------

  const HourMs: int := 1000 * 60 * 60
  const DayMs: int := 24 * 60 * 60 * 1000

  /** `loadDrawPage`'s test `(now - createdAt) / (1000 * 60 * 60) > 24`. An Invalid
      Date gives NaN, and `NaN > 24` is false. */
  predicate ExpiredOnLoad(createdAt: Timestamp, now: int): (b: bool)
    ensures b <==> createdAt.At? && now - createdAt.ms > DayMs
  {
    createdAt.At? && ((now - createdAt.ms) as real) / (HourMs as real) > 24.0
  }

  /** `cleanupOldSessions`' test `createdAt < new Date(Date.now() - 24 * 60 * 60 * 1000)`.
      A comparison with an Invalid Date is false. */
  predicate StaleOnCleanup(createdAt: Timestamp, now: int): (b: bool)
    ensures b <==> createdAt.At? && now - createdAt.ms > DayMs
  {
    createdAt.At? && createdAt.ms < now - DayMs
  }

  /** The two expiry tests agree, and both say "more than 24 hours have passed". */
  lemma ExpiryTestsAgree(createdAt: Timestamp, now: int)
    ensures ExpiredOnLoad(createdAt, now) <==> StaleOnCleanup(createdAt, now)
    ensures ExpiredOnLoad(createdAt, now) <==> createdAt.At? && now - createdAt.ms > DayMs
  {
    if createdAt.At? {
      var d := (now - createdAt.ms) as real;
      assert d / (HourMs as real) > 24.0 <==> d > 24.0 * (HourMs as real);
    }
  }

  // ---------------------------------------------------------------------------
  // cleanupOldSessions
  // ---------------------------------------------------------------------------

  /** A key that `cleanupOldSessions` removes: a session key whose record does
      not parse or is more than a day old. */
  predicate Purged(key: string, e: Entry, now: int) {
    StartsWith(key, SessionKeyPrefix) && (e.Corrupt? || StaleOnCleanup(e.session.createdAt, now))
  }

  /** The store after the cleanup pass has visited every key except `pending`. */
  function CleanedExcept(m: map<string, Entry>, now: int, pending: set<string>): map<string, Entry> {
    map k | k in m && (k in pending || !Purged(k, m[k], now)) :: m[k]
  }

  /** The store after `cleanupOldSessions`: exactly the entries that are not
      purged, each with its old value. */
  function Cleaned(m: map<string, Entry>, now: int): (r: map<string, Entry>)
    ensures forall k :: k in r <==> k in m && !Purged(k, m[k], now)
    ensures forall k :: k in r ==> r[k] == m[k]
  {
    CleanedExcept(m, now, {})
  }

  /** Cleanup never touches a key without the session prefix: such an entry
      survives with its value. */
  lemma CleanupKeepsOtherKeys(m: map<string, Entry>, now: int, key: string)
    ensures key in m && !StartsWith(key, SessionKeyPrefix) ==> key in Cleaned(m, now) && Cleaned(m, now)[key] == m[key]
  {
  }

  /** After cleanup every session key holds a record that is at most a day
      old, or one whose date does not parse; running cleanup again at the
      same time changes nothing. */
  lemma CleanupLeavesOnlyLiveSessions(m: map<string, Entry>, now: int)
    ensures forall k :: k in Cleaned(m, now) && StartsWith(k, SessionKeyPrefix) ==>
      Cleaned(m, now)[k].Record? && !StaleOnCleanup(Cleaned(m, now)[k].session.createdAt, now)
    ensures Cleaned(Cleaned(m, now), now) == Cleaned(m, now)
  {
  }

  /** A later cleanup removes at least what an earlier one would. */
  lemma CleanupMonotoneInTime(m: map<string, Entry>, earlier: int, later: int)
    requires earlier <= later
    ensures Cleaned(m, later).Keys <= Cleaned(m, earlier).Keys
  {
  }

  // ---------------------------------------------------------------------------
  // loadDrawPage
  // ---------------------------------------------------------------------------

  datatype LoadOutcome =
    | NotFound           // "Session not found or expired": no value, or an empty string
    | InvalidData        // "Invalid session data": the value does not parse
    | Expired            // "Session has expired (24 hours)": the key is removed
    | Loaded(session: SessionData)

  /** What `loadDrawPage(sessionId)` makes of the store at time `now`: not
      found for a missing key or an empty string, invalid data for any other
      unparseable value, expired for a record more than a day old, and
      otherwise the stored record. */
  function Resolve(m: map<string, Entry>, sessionId: string, now: int): (r: LoadOutcome)
    ensures var key := SessionKey(sessionId);
      && (r == NotFound <==> key !in m || m[key] == Corrupt(""))
      && (r == InvalidData <==> key in m && m[key].Corrupt? && m[key].raw != "")
      && (r == Expired <==> key in m && m[key].Record? && m[key].session.createdAt.At?
                            && now - m[key].session.createdAt.ms > DayMs)
      && (r.Loaded? ==> key in m && m[key] == Record(r.session) && !ExpiredOnLoad(r.session.createdAt, now))
  {
    var key := SessionKey(sessionId);
    if key !in m then NotFound
    else match m[key]
      case Corrupt(raw) => if raw == "" then NotFound else InvalidData
      case Record(d) => if ExpiredOnLoad(d.createdAt, now) then Expired else Loaded(d)
  }

  /** The store after `loadDrawPage`: only an expired session's key is removed,
      and every remaining entry keeps its value. */
  function AfterResolve(m: map<string, Entry>, sessionId: string, now: int): (r: map<string, Entry>)
    ensures forall k :: k in r <==> k in m && !(k == SessionKey(sessionId) && Resolve(m, sessionId, now) == Expired)
    ensures forall k :: k in r ==> r[k] == m[k]
  {
    if Resolve(m, sessionId, now) == Expired then m - {SessionKey(sessionId)} else m
  }

  /** A session older than 24 hours is refused and gone from the store
      afterwards, so asking again finds nothing; every other key is untouched. */
  lemma ExpiredSessionIsDeleted(m: map<string, Entry>, sessionId: string, now: int, later: int)
    requires Resolve(m, sessionId, now) == Expired
    ensures SessionKey(sessionId) !in AfterResolve(m, sessionId, now)
    ensures Resolve(AfterResolve(m, sessionId, now), sessionId, later) == NotFound
    ensures forall k :: k in m && k != SessionKey(sessionId) ==>
      k in AfterResolve(m, sessionId, now) && AfterResolve(m, sessionId, now)[k] == m[k]
  {
  }

  /** A session is loaded only when its stored record is at most 24 hours
      old (or carries an unreadable date), and then it is the stored record. */
  lemma LoadedMeansFresh(m: map<string, Entry>, sessionId: string, now: int)
    requires Resolve(m, sessionId, now).Loaded?
    ensures SessionKey(sessionId) in m && m[SessionKey(sessionId)] == Record(Resolve(m, sessionId, now).session)
    ensures !StaleOnCleanup(Resolve(m, sessionId, now).session.createdAt, now)
  {
    ExpiryTestsAgree(Resolve(m, sessionId, now).session.createdAt, now);
  }

  /** Right after a cleanup, loading at the same time never reports an expired
      session or unreadable data: a session is either there and usable or absent. */
  lemma LoadAfterCleanup(m: map<string, Entry>, sessionId: string, now: int)
    ensures Resolve(Cleaned(m, now), sessionId, now).NotFound? || Resolve(Cleaned(m, now), sessionId, now).Loaded?
  {
    var key := SessionKey(sessionId);
    if key in Cleaned(m, now) {
      assert !Purged(key, m[key], now);
      if m[key].Record? {
        ExpiryTestsAgree(m[key].session.createdAt, now);
      }
    }
  }
}
