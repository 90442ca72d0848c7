/**
 * The registration screen: how the form becomes the row that is saved, the
 * choice between creating and updating, the form an edit starts from, and
 * the list filter.
 *
 * The form's text inputs always hold a string ("" when left blank), so every
 * optional text column is sent as a string. Only `usia`, `pekerjaan` and
 * `nama_sekolah` can be `undefined`; a key whose value is `undefined` is
 * dropped from the JSON body, and an update leaves the column of a dropped
 * key as it was. `ParticipantDataOf` is what is sent with `undefined` read
 * as "no value"; `AsWrittenPatch` is the update that body performs, and
 * `ReplacementPatch` is the update that makes the row what the form says.
 */
module ParticipantTab {
  import opened Wrappers
  import opened Seqs
  import opened Text
  import opened Records
  import opened AppsMumi

  /**
   * The registration form's fields. The category select is required, so it
   * holds one of its options; the gender select is taken to hold one as well
   * (its blank first option is not modelled).
   */
  datatype ParticipantForm = ParticipantForm(
    jenisMudaI: JenisMudaI,
    namaLengkap: string,
    jenisKelamin: JenisKelamin,
    tempatLahir: string,
    tanggalLahir: string,
    namaOrangTua: string,
    kelompok: string,
    pendidikan: string,
    pekerjaan: string,
    namaSekolah: string,
    hobby: string)

  /** `KELOMPOK_DESA_MAP[kelompok] || ''`. */
  function DesaFor(kelompok: string): string {
    match DesaOf(kelompok)
    case Some(desa) => desa
    case None => ""
  }

  /**
   * The `participantData` of `onSubmit`: the form's fields, the group's
   * village, the age when a birth date is given (`dateOf` is the date the
   * date input's text denotes), the occupation only for USMAN and the school
   * only for GENERUS.
   */
  function ParticipantDataOf(f: ParticipantForm, today: Date, dateOf: string -> Date): (d: ParticipantData)
    ensures d.usia.Some? <==> f.tanggalLahir != ""
    ensures d.usia.Some? ==>
              && DateLe(Anniversary(dateOf(f.tanggalLahir), d.usia.value), today)
              && !DateLe(Anniversary(dateOf(f.tanggalLahir), d.usia.value + 1), today)
    ensures d.pekerjaan.Some? <==> f.jenisMudaI == Usman
    ensures d.namaSekolah.Some? <==> f.jenisMudaI == Generus
    ensures d.pekerjaan.None? || d.namaSekolah.None?
  {
    ParticipantData(
      f.jenisMudaI, f.namaLengkap, f.jenisKelamin,
      Some(f.tempatLahir), Some(f.tanggalLahir),
      if f.tanggalLahir != "" then Some(CalculateAge(dateOf(f.tanggalLahir), today)) else None,
      Some(f.namaOrangTua), f.kelompok, DesaFor(f.kelompok), Some(f.pendidikan),
      if f.jenisMudaI == Usman then Some(f.pekerjaan) else None,
      if f.jenisMudaI == Generus then Some(f.namaSekolah) else None,
      Some(f.hobby))
  }

  /** A listed group is saved with its village, which is one of the village options; any other group with "". */
  lemma DesaFollowsGroup(f: ParticipantForm, today: Date, dateOf: string -> Date)
    ensures f.kelompok in KelompokOptions() ==>
              && DesaOf(f.kelompok) == Some(ParticipantDataOf(f, today, dateOf).desa)
              && ParticipantDataOf(f, today, dateOf).desa in DesaOptions()
    ensures f.kelompok !in KelompokOptions() ==> ParticipantDataOf(f, today, dateOf).desa == ""
  {
    var desa := ParticipantDataOf(f, today, dateOf).desa;
    GroupOptionsAreMapped(f.kelompok);
    if f.kelompok in KelompokOptions() {
      VillageOptionsAreMappedValues(desa);
    }
  }

  // ---------------------------------------------------------------- saving

  /** A present value is sent; an `undefined` key is dropped and the column is kept. */
  function SentOrKept<T>(o: Option<T>): Update<T> {
    match o
    case Some(v) => Put(v)
    case None => Keep
  }

  /** A present value is sent; an absent one is sent as `null` and clears the column. */
  function SentOrCleared<T>(o: Option<T>): Update<T> {
    match o
    case Some(v) => Put(v)
    case None => Clear
  }

  /** The update that `updateParticipant(editingId, participantData)` performs. */
  function AsWrittenPatch(d: ParticipantData): (u: ParticipantPatch)
    ensures forall prev :: Patched(prev, u).usia == (if d.usia.Some? then d.usia else prev.usia)
    ensures forall prev :: Patched(prev, u).pekerjaan == (if d.pekerjaan.Some? then d.pekerjaan else prev.pekerjaan)
    ensures forall prev :: Patched(prev, u).namaSekolah == (if d.namaSekolah.Some? then d.namaSekolah else prev.namaSekolah)
  {
    ParticipantPatch(
      d.jenisMudaI, d.namaLengkap, d.jenisKelamin,
      SentOrKept(d.tempatLahir), SentOrKept(d.tanggalLahir), SentOrKept(d.usia),
      SentOrKept(d.namaOrangTua), d.kelompok, d.desa, SentOrKept(d.pendidikan),
      SentOrKept(d.pekerjaan), SentOrKept(d.namaSekolah), SentOrKept(d.hobby))
  }

  /**
   * Editing a USMAN into a GENERUS keeps the old occupation: the saved row
   * then carries both an occupation and a school.
   */
  lemma AsWrittenKeepsStaleOccupation(prev: ParticipantData, f: ParticipantForm, today: Date, dateOf: string -> Date)
    requires prev.pekerjaan.Some? && f.jenisMudaI == Generus
    ensures Patched(prev, AsWrittenPatch(ParticipantDataOf(f, today, dateOf))).pekerjaan == prev.pekerjaan
    ensures Patched(prev, AsWrittenPatch(ParticipantDataOf(f, today, dateOf))).namaSekolah == Some(f.namaSekolah)
  {
  }

  /** The update that makes the row exactly the submitted data. */
  function ReplacementPatch(d: ParticipantData): (u: ParticipantPatch)
    ensures forall prev :: Patched(prev, u) == d
  {
    ParticipantPatch(
      d.jenisMudaI, d.namaLengkap, d.jenisKelamin,
      SentOrCleared(d.tempatLahir), SentOrCleared(d.tanggalLahir), SentOrCleared(d.usia),
      SentOrCleared(d.namaOrangTua), d.kelompok, d.desa, SentOrCleared(d.pendidikan),
      SentOrCleared(d.pekerjaan), SentOrCleared(d.namaSekolah), SentOrCleared(d.hobby))
  }

  /** A row saved from the form never carries both an occupation and a school, whatever it held before. */
  lemma ReplacementKeepsCategoryFields(prev: ParticipantData, f: ParticipantForm, today: Date, dateOf: string -> Date)
    ensures var n := Patched(prev, ReplacementPatch(ParticipantDataOf(f, today, dateOf)));
            && (n.pekerjaan.Some? <==> f.jenisMudaI == Usman)
            && (n.namaSekolah.Some? <==> f.jenisMudaI == Generus)
  {
    var d := ParticipantDataOf(f, today, dateOf);
    assert Patched(prev, ReplacementPatch(d)) == d;
  }

  /** What submitting asks the service to do. */
  datatype SaveRequest =
    | CreateRequest(data: ParticipantData)
    | UpdateRequest(id: int, patch: ParticipantPatch)

  /**
   * `if (editingId)`: an edit in progress (a truthy id) updates that
   * participant so that its row becomes the submitted data; otherwise a new
   * participant is created from it.
   */
  function SaveRequestOf(editingId: Option<int>, d: ParticipantData): (r: SaveRequest)
    ensures r.UpdateRequest? <==> editingId.Some? && editingId.value != 0
    ensures r.UpdateRequest? ==> r.id == editingId.value && forall prev :: Patched(prev, r.patch) == d
    ensures r.CreateRequest? ==> r.data == d
  {
    if editingId.Some? && editingId.value != 0 then UpdateRequest(editingId.value, ReplacementPatch(d))
    else CreateRequest(d)
  }

  // ---------------------------------------------------------------- editing

  /** `value || ''` for an optional text column. */
  function OrEmpty(o: Option<string>): (s: string)
    ensures o.None? ==> s == ""
    ensures o.Some? ==> s == o.value
  {
    if o.Some? then o.value else ""
  }

  /** `handleEdit`: the form filled from a participant, each absent optional field as "". */
  function EditForm(p: Participant): (f: ParticipantForm)
    ensures f.jenisMudaI == p.data.jenisMudaI && f.jenisKelamin == p.data.jenisKelamin
    ensures f.namaLengkap == p.data.namaLengkap && f.kelompok == p.data.kelompok
    ensures f.tempatLahir == (if p.data.tempatLahir.Some? then p.data.tempatLahir.value else "")
    ensures f.tanggalLahir == (if p.data.tanggalLahir.Some? then p.data.tanggalLahir.value else "")
    ensures f.namaOrangTua == (if p.data.namaOrangTua.Some? then p.data.namaOrangTua.value else "")
    ensures f.pendidikan == (if p.data.pendidikan.Some? then p.data.pendidikan.value else "")
    ensures f.pekerjaan == (if p.data.pekerjaan.Some? then p.data.pekerjaan.value else "")
    ensures f.namaSekolah == (if p.data.namaSekolah.Some? then p.data.namaSekolah.value else "")
    ensures f.hobby == (if p.data.hobby.Some? then p.data.hobby.value else "")
  {
    ParticipantForm(
      p.data.jenisMudaI, p.data.namaLengkap, p.data.jenisKelamin,
      OrEmpty(p.data.tempatLahir), OrEmpty(p.data.tanggalLahir), OrEmpty(p.data.namaOrangTua),
      p.data.kelompok, OrEmpty(p.data.pendidikan), OrEmpty(p.data.pekerjaan),
      OrEmpty(p.data.namaSekolah), OrEmpty(p.data.hobby))
  }

  /** Editing a row that was saved from the form and submitting it unchanged (on the same day) saves the same data. */
  lemma EditThenSaveUnchanged(p: Participant, f: ParticipantForm, today: Date, dateOf: string -> Date)
    requires p.data == ParticipantDataOf(f, today, dateOf)
    ensures ParticipantDataOf(EditForm(p), today, dateOf) == p.data
  {
  }

  // ---------------------------------------------------------------- list filter

  /** The lower-cased term occurs in the lower-cased name, group or village. */
  predicate MatchesTerm(p: Participant, term: string) {
    var t := Lower(term);
    Contains(Lower(p.data.namaLengkap), t) || Contains(Lower(p.data.kelompok), t) || Contains(Lower(p.data.desa), t)
  }

  function TermFilter(term: string): Participant -> bool {
    p => MatchesTerm(p, term)
  }

  /** `filteredParticipants`: the participants matching the search term, in the list's order. */
  function FilteredParticipants(ps: seq<Participant>, term: string): (r: seq<Participant>)
    ensures forall p :: p in r <==> p in ps && MatchesTerm(p, term)
    ensures forall p :: multiset(r)[p] == if MatchesTerm(p, term) then multiset(ps)[p] else 0
  {
    FilterCounts(ps, TermFilter(term));
    Filter(ps, TermFilter(term))
  }

  /** The empty term keeps every participant, in order. */
  lemma {:induction false} EmptyTermKeepsAll(ps: seq<Participant>)
    ensures FilteredParticipants(ps, "") == ps
  {
    forall i | 0 <= i < |ps| ensures TermFilter("")(ps[i]) {
      assert OccursAt(Lower(ps[i].data.namaLengkap), Lower(""), 0);
    }
    FilterKeepsAll(ps, TermFilter(""));
  }

  /** Filtering keeps the list's order: the filtered list of a concatenation is the concatenation of the filtered parts. */
  lemma FilterKeepsOrder(ps: seq<Participant>, qs: seq<Participant>, term: string)
    ensures FilteredParticipants(ps + qs, term) == FilteredParticipants(ps, term) + FilteredParticipants(qs, term)
  {
    FilterConcat(ps, qs, TermFilter(term));
  }
}
