/**
 * The rows of the three tables (`peserta`, `sesi`, `absensi`) and the shapes
 * the application sends to and reads from them.
 *
 * An optional column is an `Option`: `None` is SQL NULL in a stored row, and
 * an `undefined` property (a key `JSON.stringify` leaves out) in a payload.
 */
module Records {
  import opened Wrappers
  import opened Seqs

  /** `jenis_muda_i`: the participant's category. */
  datatype JenisMudaI = Usman | Generus

  /** `jenis_kelamin`: the participant's gender. */
  datatype JenisKelamin = Pria | Wanita

  function JenisMudaIText(j: JenisMudaI): string {
    match j
    case Usman => "USMAN"
    case Generus => "GENERUS"
  }

  function JenisKelaminText(g: JenisKelamin): string {
    match g
    case Pria => "PRIA"
    case Wanita => "WANITA"
  }

  /** A calendar date as the year, month (1-12) and day a JavaScript `Date` reports for it. */
  datatype Date = Date(year: int, month: int, day: int)

  /** Chronological order on dates. */
  predicate DateLe(a: Date, b: Date) {
    a.year < b.year
    || (a.year == b.year && (a.month < b.month || (a.month == b.month && a.day <= b.day)))
  }

  /** The columns of a participant other than `id` and `created_at`: what registration sends. */
  datatype ParticipantData = ParticipantData(
    jenisMudaI: JenisMudaI,
    namaLengkap: string,
    jenisKelamin: JenisKelamin,
    tempatLahir: Option<string>,
    tanggalLahir: Option<string>,
    usia: Option<int>,
    namaOrangTua: Option<string>,
    kelompok: string,
    desa: string,
    pendidikan: Option<string>,
    pekerjaan: Option<string>,
    namaSekolah: Option<string>,
    hobby: Option<string>)

  /** A `peserta` row; `created_at` is a timestamp in milliseconds. */
  datatype Participant = Participant(id: int, data: ParticipantData, createdAt: int)

  /** What an update does to one optional column: leave it, set it to NULL, or set it to a value. */
  datatype Update<T> = Keep | Clear | Put(value: T)

  function Apply<T>(u: Update<T>, current: Option<T>): Option<T> {
    match u
    case Keep => current
    case Clear => None
    case Put(v) => Some(v)
  }

  /** An update of a participant row: the required columns are always sent, each optional one as an `Update`. */
  datatype ParticipantPatch = ParticipantPatch(
    jenisMudaI: JenisMudaI,
    namaLengkap: string,
    jenisKelamin: JenisKelamin,
    tempatLahir: Update<string>,
    tanggalLahir: Update<string>,
    usia: Update<int>,
    namaOrangTua: Update<string>,
    kelompok: string,
    desa: string,
    pendidikan: Update<string>,
    pekerjaan: Update<string>,
    namaSekolah: Update<string>,
    hobby: Update<string>)

  /** The columns of a participant after an update. */
  function Patched(d: ParticipantData, u: ParticipantPatch): ParticipantData {
    ParticipantData(
      u.jenisMudaI, u.namaLengkap, u.jenisKelamin,
      Apply(u.tempatLahir, d.tempatLahir),
      Apply(u.tanggalLahir, d.tanggalLahir),
      Apply(u.usia, d.usia),
      Apply(u.namaOrangTua, d.namaOrangTua),
      u.kelompok, u.desa,
      Apply(u.pendidikan, d.pendidikan),
      Apply(u.pekerjaan, d.pekerjaan),
      Apply(u.namaSekolah, d.namaSekolah),
      Apply(u.hobby, d.hobby))
  }

  /** The columns of a session other than `id` and `created_at`. */
  datatype SessionData = SessionData(
    namaSesi: string,
    tanggal: Date,
    jamMulai: string,
    jamSelesai: string,
    pemateri: Option<string>,
    materi: Option<string>)

  /** A `sesi` row. */
  datatype Session = Session(id: int, data: SessionData, createdAt: int)

  /** An update of a session row. */
  datatype SessionPatch = SessionPatch(
    namaSesi: string,
    tanggal: Date,
    jamMulai: string,
    jamSelesai: string,
    pemateri: Update<string>,
    materi: Update<string>)

  function PatchedSession(d: SessionData, u: SessionPatch): SessionData {
    SessionData(u.namaSesi, u.tanggal, u.jamMulai, u.jamSelesai,
                Apply(u.pemateri, d.pemateri), Apply(u.materi, d.materi))
  }

  /** An `absensi` row; `waktu_absen` is a timestamp in milliseconds. */
  datatype AttendanceRow = AttendanceRow(id: int, pesertaId: int, sesiId: int, waktuAbsen: int)

  /** An attendance row as the queries return it: joined with its participant and its session. */
  datatype Attendance = Attendance(row: AttendanceRow, participant: Option<Participant>, session: Option<Session>)

  function ParticipantKey(p: Participant): int { p.id }
  function SessionKey(s: Session): int { s.id }

  /** The ids present in a participant table. */
  function ParticipantIds(ps: seq<Participant>): set<int> {
    KeySet(ps, ParticipantKey)
  }

  /** The ids present in a session table. */
  function SessionIds(ss: seq<Session>): set<int> {
    KeySet(ss, SessionKey)
  }

  /** The first participant with the given id, as an embedded join or `Array.prototype.find` yields it. */
  function FindParticipant(ps: seq<Participant>, id: int): (r: Option<Participant>)
    ensures r.Some? <==> id in ParticipantIds(ps)
    ensures r.Some? ==> r.value in ps && r.value.id == id
  {
    if ps == [] then None
    else if ps[0].id == id then
      assert ps[0] in ps;
      Some(ps[0])
    else
      assert id in ParticipantIds(ps) ==> id in ParticipantIds(ps[1..]) by {
        if id in ParticipantIds(ps) {
          var p :| p in ps && ParticipantKey(p) == id;
          assert p in ps[1..];
        }
      }
      FindParticipant(ps[1..], id)
  }

  /** The first session with the given id. */
  function FindSession(ss: seq<Session>, id: int): (r: Option<Session>)
    ensures r.Some? <==> id in SessionIds(ss)
    ensures r.Some? ==> r.value in ss && r.value.id == id
  {
    if ss == [] then None
    else if ss[0].id == id then
      assert ss[0] in ss;
      Some(ss[0])
    else
      assert id in SessionIds(ss) ==> id in SessionIds(ss[1..]) by {
        if id in SessionIds(ss) {
          var s :| s in ss && SessionKey(s) == id;
          assert s in ss[1..];
        }
      }
      FindSession(ss[1..], id)
  }
}
