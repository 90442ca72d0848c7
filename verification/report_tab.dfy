/**
 * The report screen: a per-session attendance list, a per-participant
 * attendance count, and the statistics that count participants by village,
 * group, category and gender.
 *
 * The statistics are JavaScript objects built by `reduce`, adding one to the
 * entry of each participant's key; here they are `map<string, nat>` built by
 * a loop (`CountBy`) and specified by `Tally`.
 */
module ReportTab {
  import opened Wrappers
  import opened Seqs
  import opened Records
  import opened Service

  // ---------------------------------------------------------------- per-participant counts

  function PesertaIdOf(a: AttendanceRow): int { a.pesertaId }

  /**
   * `attendance.filter(a => a.peserta_id === id).length`: the number of rows
   * whose participant is `id`, that is how often `id` occurs among the rows'
   * participant ids.
   */
  function AttendanceCount(att: seq<Attendance>, id: int): (n: nat)
    ensures n == multiset(Map(RowsOf(att), PesertaIdOf))[id]
  {
    var keep := (a: Attendance) => a.row.pesertaId == id;
    FilterLengthCounts(att, id, keep);
    |Filter(att, keep)|
  }

  lemma {:induction false} FilterLengthCounts(att: seq<Attendance>, id: int, keep: Attendance -> bool)
    requires forall a :: keep(a) <==> a.row.pesertaId == id
    ensures |Filter(att, keep)| == multiset(Map(RowsOf(att), PesertaIdOf))[id]
  {
    if att != [] {
      FilterLengthCounts(att[1..], id, keep);
      var ids := Map(RowsOf(att), PesertaIdOf);
      var tail := Map(RowsOf(att[1..]), PesertaIdOf);
      assert ids == [att[0].row.pesertaId] + tail by {
        assert forall i :: 1 <= i < |att| ==> ids[i] == tail[i - 1];
      }
      assert multiset(ids) == multiset{att[0].row.pesertaId} + multiset(tail);
    }
  }

  /** An entry of the participant report: the participant's columns and its attendance count. */
  datatype ParticipantStat = ParticipantStat(participant: Participant, attendanceCount: nat)

  /** `participants.map(...)`: one entry per participant, in the list's order. */
  function ParticipantStats(ps: seq<Participant>, att: seq<Attendance>): (r: seq<ParticipantStat>)
    ensures |r| == |ps|
    ensures forall i :: 0 <= i < |ps| ==> r[i].participant == ps[i]
    ensures forall i :: 0 <= i < |ps| ==> r[i].attendanceCount == multiset(Map(RowsOf(att), PesertaIdOf))[ps[i].id]
  {
    seq(|ps|, i requires 0 <= i < |ps| => ParticipantStat(ps[i], AttendanceCount(att, ps[i].id)))
  }

  /**
   * The participant report built from the fetched lists describes the
   * tables: one entry per participant, each counting that participant's rows,
   * whatever order the lists were fetched in.
   */
  lemma ReportDescribesTables(ps: seq<Participant>, att: seq<Attendance>,
                              table: seq<Participant>, rows: seq<AttendanceRow>)
    requires multiset(ps) == multiset(table)
    requires multiset(RowsOf(att)) == multiset(rows)
    ensures |ParticipantStats(ps, att)| == |table|
    ensures forall i :: 0 <= i < |ps| ==>
              ParticipantStats(ps, att)[i].attendanceCount == multiset(Map(rows, PesertaIdOf))[ParticipantStats(ps, att)[i].participant.id]
    ensures forall p :: p in table <==> exists i :: 0 <= i < |ps| && ParticipantStats(ps, att)[i].participant == p
  {
    var stats := ParticipantStats(ps, att);
    MapPermutation(RowsOf(att), rows, PesertaIdOf);
    forall p ensures p in table <==> exists i :: 0 <= i < |ps| && stats[i].participant == p {
      assert p in ps <==> p in multiset(ps);
      assert p in table <==> p in multiset(table);
      if p in ps {
        var i :| 0 <= i < |ps| && ps[i] == p;
        assert stats[i].participant == p;
      }
    }
    assert |ps| == |multiset(ps)| == |table|;
  }

  // ---------------------------------------------------------------- statistics

  /** The entry for `k` after one more participant with key `k`: `(acc[k] || 0) + 1`. */
  function Bump(m: map<string, nat>, k: string): (r: map<string, nat>)
    ensures k in r && r[k] == (if k in m then m[k] else 0) + 1
    ensures forall j :: j != k ==> (j in r <==> j in m) && (j in m ==> r[j] == m[j])
  {
    m[k := (if k in m then m[k] else 0) + 1]
  }

  /** The map the `reduce` over `ps` builds. */
  function Tally(ps: seq<Participant>, key: Participant -> string): map<string, nat>
    decreases |ps|
  {
    if ps == [] then map[]
    else Bump(Tally(ps[..|ps| - 1], key), key(ps[|ps| - 1]))
  }

  /** The reduction, as the loop it is. */
  method CountBy(ps: seq<Participant>, key: Participant -> string) returns (m: map<string, nat>)
    ensures m == Tally(ps, key)
  {
    m := map[];
    var i := 0;
    while i < |ps|
      invariant 0 <= i <= |ps|
      invariant m == Tally(ps[..i], key)
    {
      var k := key(ps[i]);
      m := m[k := (if k in m then m[k] else 0) + 1];
      assert ps[..i + 1][..i] == ps[..i];
      i := i + 1;
    }
    assert ps[..|ps|] == ps;
  }

  /** The keys of the map are exactly the keys that occur, and each count is the number of occurrences. */
  lemma {:induction false} TallyCounts(ps: seq<Participant>, key: Participant -> string)
    ensures forall k :: k in Tally(ps, key) <==> k in Map(ps, key)
    ensures forall k :: k in Tally(ps, key) ==> Tally(ps, key)[k] == multiset(Map(ps, key))[k]
    decreases |ps|
  {
    if ps != [] {
      var init := ps[..|ps| - 1];
      TallyCounts(init, key);
      assert ps == init + [ps[|ps| - 1]];
      MapConcat(init, [ps[|ps| - 1]], key);
    }
  }

  /** A key that never occurs has no entry. */
  lemma TallyAbsent(ps: seq<Participant>, key: Participant -> string, k: string)
    requires multiset(Map(ps, key))[k] == 0
    ensures k !in Tally(ps, key)
  {
    TallyCounts(ps, key);
  }

  /** Statistics do not depend on the order of the participant list. */
  lemma TallyPermutation(ps: seq<Participant>, qs: seq<Participant>, key: Participant -> string)
    requires multiset(ps) == multiset(qs)
    ensures Tally(ps, key) == Tally(qs, key)
  {
    TallyCounts(ps, key);
    TallyCounts(qs, key);
    MapPermutation(ps, qs, key);
    var mp, mq := multiset(Map(ps, key)), multiset(Map(qs, key));
    forall k ensures k in Tally(ps, key) <==> k in Tally(qs, key) {
      assert k in Map(ps, key) <==> k in mp;
      assert k in Map(qs, key) <==> k in mq;
    }
  }

  /** The sum of the entries of `m` for the keys `ks`, absent keys counting zero. */
  function SumAt(m: map<string, nat>, ks: seq<string>): nat
    decreases |ks|
  {
    if ks == [] then 0
    else
      var k := ks[|ks| - 1];
      SumAt(m, ks[..|ks| - 1]) + (if k in m then m[k] else 0)
  }

  lemma {:induction false} SumBumpOutside(m: map<string, nat>, ks: seq<string>, k: string)
    requires k !in ks
    ensures SumAt(Bump(m, k), ks) == SumAt(m, ks)
    decreases |ks|
  {
    if ks != [] {
      SumBumpOutside(m, ks[..|ks| - 1], k);
    }
  }

  lemma {:induction false} SumBumpInside(m: map<string, nat>, ks: seq<string>, k: string)
    requires NoDuplicates(ks) && k in ks
    ensures SumAt(Bump(m, k), ks) == SumAt(m, ks) + 1
    decreases |ks|
  {
    var init := ks[..|ks| - 1];
    assert ks == init + [ks[|ks| - 1]];
    if ks[|ks| - 1] == k {
      assert k !in init;
      SumBumpOutside(m, init, k);
    } else {
      assert k in init;
      SumBumpInside(m, init, k);
    }
  }

  /**
   * The entries, summed over the keys in first-appearance order (the order
   * `Object.entries` lists them), add up to the number of participants.
   */
  lemma {:induction false} TallySum(ps: seq<Participant>, key: Participant -> string)
    ensures SumAt(Tally(ps, key), Distinct(Map(ps, key))) == |ps|
    decreases |ps|
  {
    if ps != [] {
      var init := ps[..|ps| - 1];
      var k := key(ps[|ps| - 1]);
      TallySum(init, key);
      var keys := Map(ps, key);
      assert keys[..|keys| - 1] == Map(init, key);
      var d := Distinct(Map(init, key));
      TallyCounts(init, key);
      if k in d {
        assert Distinct(keys) == d;
        SumBumpInside(Tally(init, key), d, k);
      } else {
        assert Distinct(keys) == d + [k];
        assert k !in Tally(init, key);
        SumBumpOutside(Tally(init, key), d, k);
        assert (d + [k])[..|d|] == d;
      }
    }
  }

  function DesaKey(p: Participant): string { p.data.desa }
  function KelompokKey(p: Participant): string { p.data.kelompok }
  function JenisKey(p: Participant): string { JenisMudaIText(p.data.jenisMudaI) }
  function GenderKey(p: Participant): string { JenisKelaminText(p.data.jenisKelamin) }

  // ---------------------------------------------------------------- screen

  /** The three kinds of report the screen can show. */
  datatype Report =
    | SessionReport(session: Option<Session>, attendance: seq<Attendance>, totalAttendees: nat)
    | ParticipantReport(participants: seq<ParticipantStat>, totalParticipants: nat)
    | StatisticsReport(totalParticipants: nat, totalSessions: nat, totalAttendance: nat,
                       desaStats: map<string, nat>, kelompokStats: map<string, nat>,
                       jenisStats: map<string, nat>, genderStats: map<string, nat>)

  function StatParticipant(s: ParticipantStat): Participant {
    s.participant
  }

  /** The statistics list the participants in the order they were given. */
  lemma StatsFollowParticipants(ps: seq<Participant>, att: seq<Attendance>)
    ensures Map(ParticipantStats(ps, att), StatParticipant) == ps
  {
    var stats := ParticipantStats(ps, att);
    assert forall i :: 0 <= i < |ps| ==> Map(stats, StatParticipant)[i] == ps[i];
  }

  /**
   * The report screen's state. `selectedSessionId` is 0 when no session is
   * chosen (the select's empty option gives `Number('') == 0`, and the
   * initial `null` is falsy in every `if` of the screen). `reachable` stands for
   * whether the service calls succeed; a failure is only logged.
   */
  class ReportScreen {
    var sessions: seq<Session>
    var selectedSessionId: int
    var reportData: Option<Report>
    var loading: bool

    constructor ()
      ensures sessions == [] && selectedSessionId == 0 && reportData == None && !loading
    {
      sessions, selectedSessionId, reportData, loading := [], 0, None, false;
    }

    /** `loadSessions`: the sessions, latest first; a failure leaves the list. */
    method LoadSessions(store: AttendanceStore, reachable: bool)
      modifies this
      ensures reachable ==> multiset(sessions) == multiset(store.sessions) && SortedBy(sessions, LatestSessionFirst)
      ensures !reachable ==> sessions == old(sessions)
      ensures selectedSessionId == old(selectedSessionId) && reportData == old(reportData) && loading == old(loading)
    {
      if reachable {
        sessions := store.GetSessions();
      }
    }

    /**
     * `generateSessionReport`: nothing without a selected session; otherwise
     * the session's attendance, oldest first, with the session as found in
     * the screen's list and the number of attendees.
     */
    method GenerateSessionReport(store: AttendanceStore, reachable: bool)
      requires store.Valid()
      modifies this
      ensures old(selectedSessionId) == 0 ==> reportData == old(reportData) && loading == old(loading)
      ensures old(selectedSessionId) != 0 && reachable ==>
                && reportData.Some? && reportData.value.SessionReport?
                && reportData.value.session == FindSession(sessions, selectedSessionId)
                && reportData.value.totalAttendees == |reportData.value.attendance|
      ensures old(selectedSessionId) != 0 && reachable ==>
                forall a :: multiset(RowsOf(reportData.value.attendance))[a] ==
                              if a.sesiId == selectedSessionId then multiset(store.attendance)[a] else 0
      ensures old(selectedSessionId) != 0 && reachable ==> SortedBy(RowsOf(reportData.value.attendance), OldestFirst)
      ensures old(selectedSessionId) != 0 && !reachable ==> reportData == old(reportData)
      ensures old(selectedSessionId) != 0 ==> !loading
      ensures sessions == old(sessions) && selectedSessionId == old(selectedSessionId)
    {
      if selectedSessionId == 0 {
        return;
      }
      loading := true;
      if reachable {
        var attendance := store.GetAttendanceBySession(selectedSessionId);
        var session := FindSession(sessions, selectedSessionId);
        reportData := Some(SessionReport(session, attendance, |attendance|));
      }
      loading := false;
    }

    /**
     * `generateParticipantReport`: every participant, newest first, each with
     * the number of attendance rows that name it.
     */
    method GenerateParticipantReport(store: AttendanceStore, reachable: bool)
      requires store.Valid()
      modifies this
      ensures reachable ==>
                && reportData.Some? && reportData.value.ParticipantReport?
                && reportData.value.totalParticipants == |store.participants|
                && |reportData.value.participants| == |store.participants|
      ensures reachable ==>
                var stats := reportData.value.participants;
                && (forall i :: 0 <= i < |stats| ==>
                      stats[i].attendanceCount == multiset(Map(store.attendance, PesertaIdOf))[stats[i].participant.id])
                && (forall p :: p in store.participants <==> exists i :: 0 <= i < |stats| && stats[i].participant == p)
      ensures reachable ==> SortedBy(Map(reportData.value.participants, StatParticipant), NewestParticipantFirst)
      ensures !reachable ==> reportData == old(reportData)
      ensures !loading
      ensures sessions == old(sessions) && selectedSessionId == old(selectedSessionId)
    {
      loading := true;
      if reachable {
        var participants := store.GetParticipants();
        var attendance := store.GetAttendance();
        assert multiset(RowsOf(attendance)) == multiset(store.attendance);
        var stats := ParticipantStats(participants, attendance);
        ReportDescribesTables(participants, attendance, store.participants, store.attendance);
        StatsFollowParticipants(participants, attendance);
        reportData := Some(ParticipantReport(stats, |participants|));
      }
      loading := false;
    }

    /**
     * `generateStatisticsReport`: the sizes of the three tables and, for
     * village, group, category and gender, how many participants have each
     * value.
     */
    method GenerateStatisticsReport(store: AttendanceStore, reachable: bool)
      requires store.Valid()
      modifies this
      ensures reachable ==>
                reportData == Some(StatisticsReport(
                  |store.participants|, |store.sessions|, |store.attendance|,
                  Tally(store.participants, DesaKey), Tally(store.participants, KelompokKey),
                  Tally(store.participants, JenisKey), Tally(store.participants, GenderKey)))
      ensures !reachable ==> reportData == old(reportData)
      ensures !loading
      ensures sessions == old(sessions) && selectedSessionId == old(selectedSessionId)
    {
      loading := true;
      if reachable {
        var participants := store.GetParticipants();
        var sessionList := store.GetSessions();
        var attendance := store.GetAttendance();
        assert multiset(RowsOf(attendance)) == multiset(store.attendance);
        assert |attendance| == |RowsOf(attendance)| == |multiset(store.attendance)|;
        assert |participants| == |multiset(participants)| == |store.participants|;
        assert |sessionList| == |multiset(sessionList)| == |store.sessions|;
        var desaStats := CountBy(participants, DesaKey);
        var kelompokStats := CountBy(participants, KelompokKey);
        var jenisStats := CountBy(participants, JenisKey);
        var genderStats := CountBy(participants, GenderKey);
        TallyPermutation(participants, store.participants, DesaKey);
        TallyPermutation(participants, store.participants, KelompokKey);
        TallyPermutation(participants, store.participants, JenisKey);
        TallyPermutation(participants, store.participants, GenderKey);
        reportData := Some(StatisticsReport(
          |participants|, |sessionList|, |attendance|, desaStats, kelompokStats, jenisStats, genderStats));
      }
      loading := false;
    }
  }
}
