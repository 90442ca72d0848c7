/**
 * `AppsMumiService` over an in-memory copy of the three tables. Each method
 * does what its database calls do: inserts append a row with the next serial
 * id, updates and deletes act on the rows an `eq` filter selects, and queries
 * filter, order and join. Tables are bags of rows; the specifications speak of
 * how often each row occurs in a result, and of the order the query asks for.
 */
module Service {
  import opened Wrappers
  import opened Seqs
  import opened Text
  import opened Records

  // ---------------------------------------------------------------- errors

  /** The errors the service raises, each with the `message` it carries. */
  datatype ServiceError =
    | AlreadyRecorded     // thrown by `recordAttendance` itself
    | UnknownParticipant  // foreign-key violation on `absensi.peserta_id`
    | UnknownSession      // foreign-key violation on `absensi.sesi_id`
    | NotAnInteger        // a participant id that is not an integer (NaN, undefined, a fraction, a string)
    | NoSingleRow         // `.single()` on an update that matched no row
  {
    function Message(): string {
      match this
      case AlreadyRecorded => "Peserta " + "sudah tercatat" + " hadir di sesi ini"
      case UnknownParticipant => ForeignKeyViolation("absensi", "absensi_peserta_id_fkey")
      case UnknownSession => ForeignKeyViolation("absensi", "absensi_sesi_id_fkey")
      case NotAnInteger => "invalid input syntax for type integer"
      case NoSingleRow => "JSON object requested, " + "multiple (or no) rows returned"
    }
  }

  /** PostgreSQL's message for an insert that violates a foreign-key constraint. */
  function ForeignKeyViolation(table: string, constraint: string): string {
    "insert or update on table \"" + table + "\" violates foreign key constraint \"" + constraint + "\""
  }

  // ---------------------------------------------------------------- keys and orders

  function RowKey(a: AttendanceRow): int { a.id }

  /** The (participant, session) pair an attendance row records. */
  function PairOf(a: AttendanceRow): (int, int) { (a.pesertaId, a.sesiId) }

  /** `order('nama_lengkap')`. */
  predicate ByName(p: Participant, q: Participant) {
    LexLe(p.data.namaLengkap, q.data.namaLengkap)
  }

  /** `order('created_at', { ascending: false })`. */
  predicate NewestParticipantFirst(p: Participant, q: Participant) {
    p.createdAt >= q.createdAt
  }

  /** `order('tanggal', { ascending: false })`. */
  predicate LatestSessionFirst(s: Session, t: Session) {
    DateLe(t.data.tanggal, s.data.tanggal)
  }

  /** `order('waktu_absen', { ascending: false })`. */
  predicate NewestFirst(a: AttendanceRow, b: AttendanceRow) {
    a.waktuAbsen >= b.waktuAbsen
  }

  /** `order('waktu_absen')`. */
  predicate OldestFirst(a: AttendanceRow, b: AttendanceRow) {
    a.waktuAbsen <= b.waktuAbsen
  }

  lemma ByNameOrders()
    ensures TotalPreorder(ByName)
  {
    forall p: Participant, q: Participant ensures ByName(p, q) || ByName(q, p) {
      LexLeTotal(p.data.namaLengkap, q.data.namaLengkap);
    }
    forall p: Participant, q: Participant, o: Participant | ByName(p, q) && ByName(q, o)
      ensures ByName(p, o)
    {
      LexLeTrans(p.data.namaLengkap, q.data.namaLengkap, o.data.namaLengkap);
    }
  }

  lemma TimestampOrders()
    ensures TotalPreorder(NewestParticipantFirst)
    ensures TotalPreorder(LatestSessionFirst)
    ensures TotalPreorder(NewestFirst) && TotalPreorder(OldestFirst)
  {
  }

  // ---------------------------------------------------------------- joins

  /** A row joined with its participant and session (`participant:peserta(*), session:sesi(*)`). */
  function JoinRow(ps: seq<Participant>, ss: seq<Session>, a: AttendanceRow): Attendance {
    Attendance(a, FindParticipant(ps, a.pesertaId), FindSession(ss, a.sesiId))
  }

  function RowsOf(r: seq<Attendance>): (rows: seq<AttendanceRow>)
    ensures |rows| == |r| && forall i :: 0 <= i < |r| ==> rows[i] == r[i].row
  {
    seq(|r|, i requires 0 <= i < |r| => r[i].row)
  }

  function Joined(ps: seq<Participant>, ss: seq<Session>, rows: seq<AttendanceRow>): (r: seq<Attendance>)
    ensures RowsOf(r) == rows
    ensures forall i :: 0 <= i < |r| ==> r[i] == JoinRow(ps, ss, rows[i])
  {
    seq(|rows|, i requires 0 <= i < |rows| => JoinRow(ps, ss, rows[i]))
  }

  /** Every row references an existing participant and an existing session. */
  predicate References(rows: seq<AttendanceRow>, ps: seq<Participant>, ss: seq<Session>) {
    forall a :: a in rows ==> a.pesertaId in ParticipantIds(ps) && a.sesiId in SessionIds(ss)
  }

  /** Some row records this participant at this session. */
  predicate HasRecord(rows: seq<AttendanceRow>, pesertaId: int, sesiId: int) {
    exists a :: a in rows && a.pesertaId == pesertaId && a.sesiId == sesiId
  }

  // ---------------------------------------------------------------- query predicates

  /** The filters `searchParticipants` accepts; a number is what the form's `parseInt` produced. */
  datatype SearchFilters = SearchFilters(
    nama: Option<string>,
    desa: Option<string>,
    kelompok: Option<string>,
    jenisKelamin: Option<string>,
    usiaMin: Option<JsNumber>,
    usiaMax: Option<JsNumber>)

  /** A text filter takes part when it is truthy: present and non-empty. */
  predicate Given(o: Option<string>) {
    o.Some? && o.value != ""
  }

  /** An age bound takes part when it is truthy: present, not NaN and not 0. */
  predicate BoundGiven(o: Option<JsNumber>) {
    o.Some? && o.value.Truthy()
  }

  /**
   * A participant satisfies every filter that takes part: the name contains
   * the text whatever the case (`ilike '%text%'`), village, group and gender
   * are equal, and the age lies within the bounds. A row without an age fails
   * every bound, since a comparison with NULL is not true.
   */
  predicate Matches(p: Participant, f: SearchFilters) {
    && (Given(f.nama) ==> Contains(Lower(p.data.namaLengkap), Lower(f.nama.value)))
    && (Given(f.desa) ==> p.data.desa == f.desa.value)
    && (Given(f.kelompok) ==> p.data.kelompok == f.kelompok.value)
    && (Given(f.jenisKelamin) ==> JenisKelaminText(p.data.jenisKelamin) == f.jenisKelamin.value)
    && (BoundGiven(f.usiaMin) ==> p.data.usia.Some? && p.data.usia.value >= f.usiaMin.value.value)
    && (BoundGiven(f.usiaMax) ==> p.data.usia.Some? && p.data.usia.value <= f.usiaMax.value.value)
  }

  /** The first `k` conditions of `Matches`, in the order the query applies them. */
  ghost predicate MatchesUpTo(p: Participant, f: SearchFilters, k: nat) {
    && (k >= 1 && Given(f.nama) ==> Contains(Lower(p.data.namaLengkap), Lower(f.nama.value)))
    && (k >= 2 && Given(f.desa) ==> p.data.desa == f.desa.value)
    && (k >= 3 && Given(f.kelompok) ==> p.data.kelompok == f.kelompok.value)
    && (k >= 4 && Given(f.jenisKelamin) ==> JenisKelaminText(p.data.jenisKelamin) == f.jenisKelamin.value)
    && (k >= 5 && BoundGiven(f.usiaMin) ==> p.data.usia.Some? && p.data.usia.value >= f.usiaMin.value.value)
    && (k >= 6 && BoundGiven(f.usiaMax) ==> p.data.usia.Some? && p.data.usia.value <= f.usiaMax.value.value)
  }

  /** The rows of `query` are those of `base` that pass the first `k` conditions. */
  ghost predicate Stage(query: seq<Participant>, base: seq<Participant>, f: SearchFilters, k: nat) {
    forall p :: multiset(query)[p] == if MatchesUpTo(p, f, k) then multiset(base)[p] else 0
  }

  /** Applying the next condition of the query, as a filter or not at all when the condition is off. */
  lemma StageStep(query: seq<Participant>, base: seq<Participant>, f: SearchFilters, k: nat, on: bool, keep: Participant -> bool)
    requires k >= 1 && Stage(query, base, f, k - 1)
    requires forall p :: MatchesUpTo(p, f, k) <==> MatchesUpTo(p, f, k - 1) && (on ==> keep(p))
    ensures Stage(if on then Filter(query, keep) else query, base, f, k)
  {
    FilterCounts(query, keep);
  }

  const MsPerDay: int := 86_400_000

  /** Midnight (UTC) of the day of `now`, the date `toISOString` prints. */
  function DayStart(now: int): int {
    now - now % MsPerDay
  }

  /** Recorded between `T00:00:00` (included) and `T23:59:59` (excluded) of the day of `now`. */
  predicate RecordedToday(a: AttendanceRow, now: int) {
    DayStart(now) <= a.waktuAbsen < DayStart(now) + 86_399_000
  }

  /** The row's participant exists and lives in `desa` (`peserta!inner`, `eq('participant.desa', desa)`). */
  predicate InDesa(ps: seq<Participant>, a: AttendanceRow, desa: string) {
    var p := FindParticipant(ps, a.pesertaId);
    p.Some? && p.value.data.desa == desa
  }

  /** An optional session id takes part when it is truthy. */
  predicate SessionGiven(o: Option<int>) {
    o.Some? && o.value != 0
  }

  /**
   * The rows `getAttendanceByDesa` selects before ordering them: those of
   * participants in `desa`, and of the given session when one is given.
   */
  function DesaQuery(ps: seq<Participant>, att: seq<AttendanceRow>, desa: string, sessionId: Option<int>): (q: seq<AttendanceRow>)
    ensures forall a :: multiset(q)[a] ==
              if InDesa(ps, a, desa) && (SessionGiven(sessionId) ==> a.sesiId == sessionId.value)
              then multiset(att)[a] else 0
    ensures forall a :: a in q ==> InDesa(ps, a, desa)
  {
    var keep := (a: AttendanceRow) => InDesa(ps, a, desa);
    FilterCounts(att, keep);
    var inDesa := Filter(att, keep);
    if SessionGiven(sessionId) then
      var sameSession := (a: AttendanceRow) => a.sesiId == sessionId.value;
      FilterCounts(inDesa, sameSession);
      Filter(inDesa, sameSession)
    else inDesa
  }

  // ---------------------------------------------------------------- updates

  /** The participant table after the row with id `id` received update `u`. */
  function UpdatedParticipants(ps: seq<Participant>, id: int, u: ParticipantPatch): (r: seq<Participant>)
    ensures |r| == |ps|
    ensures forall i :: 0 <= i < |ps| ==>
              r[i] == if ps[i].id == id then Participant(id, Patched(ps[i].data, u), ps[i].createdAt) else ps[i]
  {
    seq(|ps|, i requires 0 <= i < |ps| =>
      if ps[i].id == id then Participant(id, Patched(ps[i].data, u), ps[i].createdAt) else ps[i])
  }

  /** The session table after the row with id `id` received update `u`. */
  function UpdatedSessions(ss: seq<Session>, id: int, u: SessionPatch): (r: seq<Session>)
    ensures |r| == |ss|
    ensures forall i :: 0 <= i < |ss| ==>
              r[i] == if ss[i].id == id then Session(id, PatchedSession(ss[i].data, u), ss[i].createdAt) else ss[i]
  {
    seq(|ss|, i requires 0 <= i < |ss| =>
      if ss[i].id == id then Session(id, PatchedSession(ss[i].data, u), ss[i].createdAt) else ss[i])
  }

  // ---------------------------------------------------------------- the database invariant

  /**
   * Ids are unique, positive and below the next serial value, each
   * (participant, session) pair is recorded at most once (the check in
   * `recordAttendance`), and every attendance row references an existing
   * participant and session (the foreign keys the joins rely on).
   */
  ghost predicate Tables(ps: seq<Participant>, ss: seq<Session>, rows: seq<AttendanceRow>, np: int, ns: int, na: int) {
    && SerialTable(ps, ParticipantKey, np)
    && SerialTable(ss, SessionKey, ns)
    && SerialTable(rows, RowKey, na)
    && DistinctKeys(rows, PairOf)
    && References(rows, ps, ss)
  }

  /** Deleting a participant together with its attendance rows keeps the invariant. */
  lemma DeleteParticipantKeepsTables(ps: seq<Participant>, ss: seq<Session>, rows: seq<AttendanceRow>,
                                     np: int, ns: int, na: int, id: int,
                                     keepParticipant: Participant -> bool, keepRow: AttendanceRow -> bool)
    requires Tables(ps, ss, rows, np, ns, na)
    requires forall p :: keepParticipant(p) <==> p.id != id
    requires forall a :: keepRow(a) <==> a.pesertaId != id
    ensures Tables(Filter(ps, keepParticipant), ss, Filter(rows, keepRow), np, ns, na)
  {
    SerialFilter(rows, keepRow, RowKey, na);
    FilterKeepsDistinct(rows, keepRow, PairOf);
    SerialDelete(ps, keepParticipant, ParticipantKey, np, id);
    forall a | a in Filter(rows, keepRow)
      ensures a.pesertaId in ParticipantIds(Filter(ps, keepParticipant)) && a.sesiId in SessionIds(ss)
    {
      assert a in rows;
    }
  }

  /** Deleting a session together with its attendance rows keeps the invariant. */
  lemma DeleteSessionKeepsTables(ps: seq<Participant>, ss: seq<Session>, rows: seq<AttendanceRow>,
                                 np: int, ns: int, na: int, id: int,
                                 keepSession: Session -> bool, keepRow: AttendanceRow -> bool)
    requires Tables(ps, ss, rows, np, ns, na)
    requires forall s :: keepSession(s) <==> s.id != id
    requires forall a :: keepRow(a) <==> a.sesiId != id
    ensures Tables(ps, Filter(ss, keepSession), Filter(rows, keepRow), np, ns, na)
  {
    SerialFilter(rows, keepRow, RowKey, na);
    FilterKeepsDistinct(rows, keepRow, PairOf);
    SerialDelete(ss, keepSession, SessionKey, ns, id);
    forall a | a in Filter(rows, keepRow)
      ensures a.pesertaId in ParticipantIds(ps) && a.sesiId in SessionIds(Filter(ss, keepSession))
    {
      assert a in rows;
    }
  }

  /** Appending a row for a pair not yet recorded, with existing participant and session, keeps the invariant. */
  lemma RecordKeepsTables(ps: seq<Participant>, ss: seq<Session>, rows: seq<AttendanceRow>,
                          np: int, ns: int, na: int, row: AttendanceRow)
    requires Tables(ps, ss, rows, np, ns, na)
    requires row.id == na && !HasRecord(rows, row.pesertaId, row.sesiId)
    requires row.pesertaId in ParticipantIds(ps) && row.sesiId in SessionIds(ss)
    ensures Tables(ps, ss, rows + [row], np, ns, na + 1)
  {
    SerialAppend(rows, row, RowKey, na);
    forall i | 0 <= i < |rows| ensures PairOf(rows[i]) != PairOf(row) {
      assert rows[i] in rows;
    }
    DistinctKeysAppend(rows, row, PairOf);
  }

  /** With pairs unique, a `.single()` read of the pair finds a row exactly when the pair is recorded. */
  lemma SingleMatch(rows: seq<AttendanceRow>, pid: int, sid: int, same: AttendanceRow -> bool)
    requires DistinctKeys(rows, PairOf)
    requires forall a :: same(a) <==> a.pesertaId == pid && a.sesiId == sid
    ensures |Filter(rows, same)| == 1 <==> HasRecord(rows, pid, sid)
  {
    var m := Filter(rows, same);
    // Every row found has the pair; two of them would break the uniqueness `Filter` keeps.
    assert |m| >= 2 ==> PairOf(m[0]) == PairOf(m[1]) by {
      if |m| >= 2 {
        assert m[0] in m && m[1] in m;
      }
    }
    if |m| == 1 {
      assert m[0] in m;
    }
    FilterKeepsDistinct(rows, same, PairOf);
    if HasRecord(rows, pid, sid) {
      var a :| a in rows && a.pesertaId == pid && a.sesiId == sid;
      assert a in m;
    }
  }

  // ---------------------------------------------------------------- the store

  class AttendanceStore {
    var participants: seq<Participant>
    var sessions: seq<Session>
    var attendance: seq<AttendanceRow>
    var nextParticipantId: int
    var nextSessionId: int
    var nextAttendanceId: int

    /** The database invariant holds of the current tables and counters. */
    ghost predicate Valid()
      reads this
    {
      Tables(participants, sessions, attendance, nextParticipantId, nextSessionId, nextAttendanceId)
    }

    constructor ()
      ensures Valid()
      ensures participants == [] && sessions == [] && attendance == []
    {
      participants, sessions, attendance := [], [], [];
      nextParticipantId, nextSessionId, nextAttendanceId := 1, 1, 1;
    }

    // ------------------------------------------------------------ participants

    /** `getParticipants`: every participant, newest first. */
    method GetParticipants() returns (r: seq<Participant>)
      ensures multiset(r) == multiset(participants)
      ensures SortedBy(r, NewestParticipantFirst)
    {
      TimestampOrders();
      r := SortBy(participants, NewestParticipantFirst);
    }

    /** `createParticipant`: appends a row with the next serial id. */
    method CreateParticipant(d: ParticipantData, now: int) returns (p: Participant)
      requires Valid()
      modifies this
      ensures Valid()
      ensures p == Participant(old(nextParticipantId), d, now)
      ensures p.id !in ParticipantIds(old(participants))
      ensures participants == old(participants) + [p]
      ensures nextParticipantId == old(nextParticipantId) + 1
      ensures sessions == old(sessions) && attendance == old(attendance)
      ensures nextSessionId == old(nextSessionId) && nextAttendanceId == old(nextAttendanceId)
    {
      p := Participant(nextParticipantId, d, now);
      SerialAppend(participants, p, ParticipantKey, nextParticipantId);
      participants := participants + [p];
      nextParticipantId := nextParticipantId + 1;
    }

    /**
     * `updateParticipant`: applies the update to the row with that id. With
     * `.single()`, an id no row has is an error and changes nothing.
     */
    method UpdateParticipant(id: int, u: ParticipantPatch) returns (r: Result<Participant, ServiceError>)
      requires Valid()
      modifies this
      ensures Valid()
      ensures r.Ok? <==> id in ParticipantIds(old(participants))
      ensures r.Err? ==> r.error == NoSingleRow && participants == old(participants)
      ensures r.Ok? ==> participants == UpdatedParticipants(old(participants), id, u)
      ensures r.Ok? ==> r.value in participants
      ensures r.Ok? ==> exists q :: q in old(participants) && q.id == id && r.value == Participant(id, Patched(q.data, u), q.createdAt)
      ensures sessions == old(sessions) && attendance == old(attendance)
      ensures nextParticipantId == old(nextParticipantId)
      ensures nextSessionId == old(nextSessionId) && nextAttendanceId == old(nextAttendanceId)
    {
      var found := FindParticipant(participants, id);
      if found.None? {
        return Err(NoSingleRow);
      }
      var ps := participants;
      participants := UpdatedParticipants(ps, id, u);
      SerialRewrite(ps, participants, ParticipantKey, nextParticipantId);
      var k :| 0 <= k < |ps| && ps[k] == found.value;
      r := Ok(participants[k]);
    }

    /**
     * `deleteParticipant`: removes the participant's attendance rows, then the
     * participant. Other rows are untouched.
     */
    method DeleteParticipant(id: int)
      requires Valid()
      modifies this
      ensures Valid()
      ensures id !in ParticipantIds(participants)
      ensures !exists a :: a in attendance && a.pesertaId == id
      ensures forall a :: multiset(attendance)[a] == if a.pesertaId == id then 0 else multiset(old(attendance))[a]
      ensures forall p :: multiset(participants)[p] == if p.id == id then 0 else multiset(old(participants))[p]
      ensures sessions == old(sessions)
      ensures nextParticipantId == old(nextParticipantId)
      ensures nextSessionId == old(nextSessionId) && nextAttendanceId == old(nextAttendanceId)
    {
      var keepRow := (a: AttendanceRow) => a.pesertaId != id;
      var keepParticipant := (p: Participant) => p.id != id;
      ghost var rows, ps := attendance, participants;
      attendance := Filter(attendance, keepRow);
      participants := Filter(participants, keepParticipant);
      FilterCounts(rows, keepRow);
      FilterCounts(ps, keepParticipant);
      DeleteParticipantKeepsTables(ps, sessions, rows, nextParticipantId, nextSessionId, nextAttendanceId,
                                   id, keepParticipant, keepRow);
    }

    /** `searchParticipants`: the participants that satisfy every filter given, ordered by name. */
    method SearchParticipants(f: SearchFilters) returns (r: seq<Participant>)
      ensures forall p :: multiset(r)[p] == if Matches(p, f) then multiset(participants)[p] else 0
      ensures SortedBy(r, ByName)
    {
      var query := participants;
      assert Stage(query, participants, f, 0);
      var keep1 := (p: Participant) => Given(f.nama) && Contains(Lower(p.data.namaLengkap), Lower(f.nama.value));
      StageStep(query, participants, f, 1, Given(f.nama), keep1);
      if Given(f.nama) {
        query := Filter(query, keep1);
      }
      var keep2 := (p: Participant) => Given(f.desa) && p.data.desa == f.desa.value;
      StageStep(query, participants, f, 2, Given(f.desa), keep2);
      if Given(f.desa) {
        query := Filter(query, keep2);
      }
      var keep3 := (p: Participant) => Given(f.kelompok) && p.data.kelompok == f.kelompok.value;
      StageStep(query, participants, f, 3, Given(f.kelompok), keep3);
      if Given(f.kelompok) {
        query := Filter(query, keep3);
      }
      var keep4 := (p: Participant) => Given(f.jenisKelamin) && JenisKelaminText(p.data.jenisKelamin) == f.jenisKelamin.value;
      StageStep(query, participants, f, 4, Given(f.jenisKelamin), keep4);
      if Given(f.jenisKelamin) {
        query := Filter(query, keep4);
      }
      var keep5 := (p: Participant) => BoundGiven(f.usiaMin) && (p.data.usia.Some? && p.data.usia.value >= f.usiaMin.value.value);
      StageStep(query, participants, f, 5, BoundGiven(f.usiaMin), keep5);
      if BoundGiven(f.usiaMin) {
        query := Filter(query, keep5);
      }
      var keep6 := (p: Participant) => BoundGiven(f.usiaMax) && (p.data.usia.Some? && p.data.usia.value <= f.usiaMax.value.value);
      StageStep(query, participants, f, 6, BoundGiven(f.usiaMax), keep6);
      if BoundGiven(f.usiaMax) {
        query := Filter(query, keep6);
      }
      assert forall p :: MatchesUpTo(p, f, 6) == Matches(p, f);
      ByNameOrders();
      r := SortBy(query, ByName);
    }

    // ------------------------------------------------------------ sessions

    /** `getSessions`: every session, latest date first. */
    method GetSessions() returns (r: seq<Session>)
      ensures multiset(r) == multiset(sessions)
      ensures SortedBy(r, LatestSessionFirst)
    {
      TimestampOrders();
      r := SortBy(sessions, LatestSessionFirst);
    }

    /** `createSession`: appends a row with the next serial id. */
    method CreateSession(d: SessionData, now: int) returns (s: Session)
      requires Valid()
      modifies this
      ensures Valid()
      ensures s == Session(old(nextSessionId), d, now)
      ensures s.id !in SessionIds(old(sessions))
      ensures sessions == old(sessions) + [s]
      ensures nextSessionId == old(nextSessionId) + 1
      ensures participants == old(participants) && attendance == old(attendance)
      ensures nextParticipantId == old(nextParticipantId) && nextAttendanceId == old(nextAttendanceId)
    {
      s := Session(nextSessionId, d, now);
      SerialAppend(sessions, s, SessionKey, nextSessionId);
      sessions := sessions + [s];
      nextSessionId := nextSessionId + 1;
    }

    /** `updateSession`: applies the update to the row with that id; an unknown id is an error. */
    method UpdateSession(id: int, u: SessionPatch) returns (r: Result<Session, ServiceError>)
      requires Valid()
      modifies this
      ensures Valid()
      ensures r.Ok? <==> id in SessionIds(old(sessions))
      ensures r.Err? ==> r.error == NoSingleRow && sessions == old(sessions)
      ensures r.Ok? ==> sessions == UpdatedSessions(old(sessions), id, u)
      ensures r.Ok? ==> r.value in sessions
      ensures r.Ok? ==> exists q :: q in old(sessions) && q.id == id && r.value == Session(id, PatchedSession(q.data, u), q.createdAt)
      ensures participants == old(participants) && attendance == old(attendance)
      ensures nextSessionId == old(nextSessionId)
      ensures nextParticipantId == old(nextParticipantId) && nextAttendanceId == old(nextAttendanceId)
    {
      var found := FindSession(sessions, id);
      if found.None? {
        return Err(NoSingleRow);
      }
      var ss := sessions;
      sessions := UpdatedSessions(ss, id, u);
      SerialRewrite(ss, sessions, SessionKey, nextSessionId);
      var k :| 0 <= k < |ss| && ss[k] == found.value;
      r := Ok(sessions[k]);
    }

    /** `deleteSession`: removes the session's attendance rows, then the session. */
    method DeleteSession(id: int)
      requires Valid()
      modifies this
      ensures Valid()
      ensures id !in SessionIds(sessions)
      ensures !exists a :: a in attendance && a.sesiId == id
      ensures forall a :: multiset(attendance)[a] == if a.sesiId == id then 0 else multiset(old(attendance))[a]
      ensures forall s :: multiset(sessions)[s] == if s.id == id then 0 else multiset(old(sessions))[s]
      ensures participants == old(participants)
      ensures nextSessionId == old(nextSessionId)
      ensures nextParticipantId == old(nextParticipantId) && nextAttendanceId == old(nextAttendanceId)
    {
      var keepRow := (a: AttendanceRow) => a.sesiId != id;
      var keepSession := (s: Session) => s.id != id;
      ghost var rows, ss := attendance, sessions;
      attendance := Filter(attendance, keepRow);
      sessions := Filter(sessions, keepSession);
      FilterCounts(rows, keepRow);
      FilterCounts(ss, keepSession);
      DeleteSessionKeepsTables(participants, ss, rows, nextParticipantId, nextSessionId, nextAttendanceId,
                               id, keepSession, keepRow);
    }

    // ------------------------------------------------------------ attendance

    /** `getAttendance`: every row, joined, newest first. */
    method GetAttendance() returns (r: seq<Attendance>)
      requires Valid()
      ensures forall a :: multiset(RowsOf(r))[a] == multiset(attendance)[a]
      ensures SortedBy(RowsOf(r), NewestFirst)
      ensures forall i :: 0 <= i < |r| ==> r[i] == JoinRow(participants, sessions, r[i].row)
      ensures forall i :: 0 <= i < |r| ==> r[i].participant.Some? && r[i].session.Some?
    {
      TimestampOrders();
      var rows := SortBy(attendance, NewestFirst);
      r := Joined(participants, sessions, rows);
      JoinedComplete(rows, attendance);
    }

    /** Joining rows taken from the table finds each one's participant and session. */
    lemma JoinedComplete(rows: seq<AttendanceRow>, table: seq<AttendanceRow>)
      requires References(table, participants, sessions)
      requires forall a :: multiset(rows)[a] <= multiset(table)[a]
      ensures forall i :: 0 <= i < |rows| ==>
                JoinRow(participants, sessions, rows[i]).participant.Some?
                && JoinRow(participants, sessions, rows[i]).session.Some?
    {
      forall i | 0 <= i < |rows|
        ensures rows[i].pesertaId in ParticipantIds(participants) && rows[i].sesiId in SessionIds(sessions)
      {
        assert rows[i] in multiset(rows);
        assert rows[i] in multiset(table);
      }
    }

    /**
     * `recordAttendance`: fails with the "already recorded" error when the
     * pair is recorded, leaving the table as it was; otherwise inserts one row
     * stamped `now`, which the database refuses when the id is not an integer
     * or references no participant or session.
     */
    method RecordAttendance(pesertaId: Option<int>, sesiId: int, now: int) returns (r: Result<Attendance, ServiceError>)
      requires Valid()
      modifies this
      ensures Valid()
      ensures r == Err(AlreadyRecorded) <==> pesertaId.Some? && HasRecord(old(attendance), pesertaId.value, sesiId)
      ensures r.Ok? <==> && pesertaId.Some?
                         && !HasRecord(old(attendance), pesertaId.value, sesiId)
                         && pesertaId.value in ParticipantIds(participants)
                         && sesiId in SessionIds(sessions)
      ensures r.Err? ==> attendance == old(attendance) && nextAttendanceId == old(nextAttendanceId)
      ensures r.Ok? ==> && r.value.row == AttendanceRow(old(nextAttendanceId), pesertaId.value, sesiId, now)
                        && attendance == old(attendance) + [r.value.row]
                        && nextAttendanceId == old(nextAttendanceId) + 1
                        && r.value == JoinRow(participants, sessions, r.value.row)
                        && r.value.participant.Some? && r.value.session.Some?
                        && HasRecord(attendance, pesertaId.value, sesiId)
      ensures participants == old(participants) && sessions == old(sessions)
      ensures nextParticipantId == old(nextParticipantId) && nextSessionId == old(nextSessionId)
    {
      if pesertaId.None? {
        return Err(NotAnInteger);
      }
      var pid := pesertaId.value;
      // The existence check reads one row with `.single()`: it sees a row only when exactly one matches.
      var sameRecord := (a: AttendanceRow) => a.pesertaId == pid && a.sesiId == sesiId;
      var existing := Filter(attendance, sameRecord);
      SingleMatch(attendance, pid, sesiId, sameRecord);
      if |existing| == 1 {
        return Err(AlreadyRecorded);
      }
      if pid !in ParticipantIds(participants) {
        return Err(UnknownParticipant);
      }
      if sesiId !in SessionIds(sessions) {
        return Err(UnknownSession);
      }
      var row := AttendanceRow(nextAttendanceId, pid, sesiId, now);
      RecordKeepsTables(participants, sessions, attendance, nextParticipantId, nextSessionId, nextAttendanceId, row);
      attendance := attendance + [row];
      nextAttendanceId := nextAttendanceId + 1;
      assert row in attendance;
      r := Ok(JoinRow(participants, sessions, row));
    }

    /** `getTodayAttendance`: the rows recorded on the day of `now` before 23:59:59, joined, newest first. */
    method GetTodayAttendance(now: int) returns (r: seq<Attendance>)
      requires Valid()
      ensures forall a :: multiset(RowsOf(r))[a] == if RecordedToday(a, now) then multiset(attendance)[a] else 0
      ensures SortedBy(RowsOf(r), NewestFirst)
      ensures forall i :: 0 <= i < |r| ==> r[i] == JoinRow(participants, sessions, r[i].row)
      ensures forall i :: 0 <= i < |r| ==> r[i].participant.Some? && r[i].session.Some?
    {
      var keep := (a: AttendanceRow) => RecordedToday(a, now);
      var rows := Filter(attendance, keep);
      forall a: AttendanceRow ensures multiset(rows)[a] == if RecordedToday(a, now) then multiset(attendance)[a] else 0 {
        FilterCount(attendance, keep, a);
      }
      TimestampOrders();
      rows := SortBy(rows, NewestFirst);
      r := Joined(participants, sessions, rows);
      JoinedComplete(rows, attendance);
    }

    /** `getAttendanceBySession`: the rows of one session, joined, oldest first. */
    method GetAttendanceBySession(sessionId: int) returns (r: seq<Attendance>)
      requires Valid()
      ensures forall a :: multiset(RowsOf(r))[a] == if a.sesiId == sessionId then multiset(attendance)[a] else 0
      ensures SortedBy(RowsOf(r), OldestFirst)
      ensures forall i :: 0 <= i < |r| ==> r[i] == JoinRow(participants, sessions, r[i].row)
      ensures forall i :: 0 <= i < |r| ==> r[i].participant.Some? && r[i].session.Some?
    {
      var keep := (a: AttendanceRow) => a.sesiId == sessionId;
      var rows := Filter(attendance, keep);
      forall a: AttendanceRow ensures multiset(rows)[a] == if a.sesiId == sessionId then multiset(attendance)[a] else 0 {
        FilterCount(attendance, keep, a);
      }
      TimestampOrders();
      rows := SortBy(rows, OldestFirst);
      r := Joined(participants, sessions, rows);
      JoinedComplete(rows, attendance);
    }

    /**
     * `getAttendanceByDesa`: the rows whose participant lives in `desa`,
     * restricted to one session when a truthy session id is given, joined,
     * oldest first.
     */
    method GetAttendanceByDesa(desa: string, sessionId: Option<int>) returns (r: seq<Attendance>)
      requires Valid()
      ensures forall a :: multiset(RowsOf(r))[a] ==
                if InDesa(participants, a, desa) && (SessionGiven(sessionId) ==> a.sesiId == sessionId.value)
                then multiset(attendance)[a] else 0
      ensures SortedBy(RowsOf(r), OldestFirst)
      ensures forall i :: 0 <= i < |r| ==> r[i] == JoinRow(participants, sessions, r[i].row)
      ensures forall i :: 0 <= i < |r| ==> r[i].participant.Some? && r[i].participant.value.data.desa == desa
    {
      var query := DesaQuery(participants, attendance, desa, sessionId);
      TimestampOrders();
      var rows := SortBy(query, OldestFirst);
      r := Joined(participants, sessions, rows);
      SortByMembers(query, OldestFirst);
    }
  }
}
