/**
 * The attendance scanner screen: decoding the text a QR code holds into a
 * participant id, the guards around recording, and how a failure to record
 * is reported.
 */
module ScanTab {
  import opened Wrappers
  import opened Seqs
  import opened Text
  import opened Json
  import opened Records
  import opened Service
  import AppsMumi

  // ---------------------------------------------------------------- decoding

  /** No decimal digit occurs before position `i`. */
  predicate NoDigitBefore(s: string, i: int) {
    forall j :: 0 <= j < i && j < |s| ==> !IsDigit(s[j])
  }

  /** `s.match(/\d+/)`: the first maximal run of decimal digits, `None` when `s` has none. */
  function FirstDigitRun(s: string): (r: Option<string>)
    ensures r.None? <==> NoDigitBefore(s, |s|)
    ensures r.Some? ==> r.value != [] && AllDigits(r.value)
    ensures r.Some? ==> exists i :: 0 <= i < |s| && NoDigitBefore(s, i) && IsDigit(s[i]) && r.value == LeadingDigits(s[i..])
  {
    if s == [] then None
    else if IsDigit(s[0]) then
      assert s[0..] == s;
      Some(LeadingDigits(s))
    else
      var r := FirstDigitRun(s[1..]);
      assert r.Some? ==> exists i :: 0 <= i < |s| && NoDigitBefore(s, i) && IsDigit(s[i]) && r.value == LeadingDigits(s[i..]) by {
        if r.Some? {
          var i :| 0 <= i < |s[1..]| && NoDigitBefore(s[1..], i) && IsDigit(s[1..][i]) && r.value == LeadingDigits(s[1..][i..]);
          assert s[1..][i..] == s[i + 1..];
          assert NoDigitBefore(s, i + 1) by {
            forall j | 0 <= j < i + 1 && j < |s| ensures !IsDigit(s[j]) {
              if j > 0 { assert s[j] == s[1..][j - 1]; }
            }
          }
        }
      }
      assert NoDigitBefore(s[1..], |s| - 1) ==> NoDigitBefore(s, |s|) by {
        if NoDigitBefore(s[1..], |s| - 1) {
          forall j | 0 <= j < |s| ensures !IsDigit(s[j]) {
            if j > 0 { assert s[j] == s[1..][j - 1]; }
          }
        }
      }
      r
  }

  /** What a scanned text yields: a participant id (absent when the text names none), or a rejection. */
  datatype Scanned = Decoded(id: Option<int>) | InvalidFormat

  /** `data.id` for a value `JSON.parse` returned: an integer only when `id` is a number denoting one. */
  function IdField(v: Json): (r: Option<int>)
    ensures r.Some? ==> exists m, e :: Property(v, "id") == Some(JNumber(m, e)) && IntegralValue(m, e) == r
    ensures (exists m, e :: Property(v, "id") == Some(JNumber(m, e)) && IntegralValue(m, e).Some?) ==> r.Some?
  {
    match Property(v, "id")
    case Some(JNumber(m, e)) => IntegralValue(m, e)
    case _ => None
  }

  /**
   * The `catch` branch of the decoding: the first run of digits read with
   * `parseInt`, which is its decimal value; a text without a digit is rejected.
   */
  function DigitFallback(text: string): (r: Scanned)
    ensures r == InvalidFormat <==> NoDigitBefore(text, |text|)
    ensures r != InvalidFormat ==> r == Decoded(Some(DecimalValue(FirstDigitRun(text).value)))
  {
    match FirstDigitRun(text)
    case None => InvalidFormat
    case Some(run) =>
      ParseIntOfDigits(run);
      match ParseInt(run)
      case Int(v) => Decoded(Some(v))
      case NaN => Decoded(None)
  }

  /**
   * The decoding in `processQRCode`. When the text parses, its `id` is used
   * and the text is not searched for digits; reading a property of `null`
   * throws, so the text "null" is treated like one that does not parse and
   * goes to the digit fallback.
   */
  function DecodeScan(text: string): (r: Scanned)
    ensures r == InvalidFormat ==> NoDigitBefore(text, |text|)
  {
    var parsed := Parse(text);
    if parsed.Some? && parsed.value != JNull then Decoded(IdField(parsed.value))
    else DigitFallback(text)
  }

  /** A text that does not parse, or is `null`, is decoded by the digit fallback alone. */
  lemma DecodeFallback(text: string)
    requires Parse(text).None? || Parse(text) == Some(JNull)
    ensures DecodeScan(text) == DigitFallback(text)
  {
  }

  /** A text that parses to something other than `null` yields its `id` field, whatever digits it holds. */
  lemma DecodeParsed(text: string, v: Json)
    requires Parse(text) == Some(v) && v != JNull
    ensures DecodeScan(text) == Decoded(IdField(v))
    ensures Property(v, "id").None? ==> DecodeScan(text) == Decoded(None)
    ensures !v.JObject? ==> DecodeScan(text) == Decoded(None)
  {
  }

  /** Decoding the text of a participant's QR code yields the participant's id. */
  lemma DecodeQrText(p: Participant)
    ensures DecodeScan(AppsMumi.QrText(p)) == Decoded(Some(p.id))
  {
    AppsMumi.QrTextRoundTrip(p);
    var v := AppsMumi.QrPayload(p);
    assert Property(v, "id") == Some(JNumber(p.id, 0));
    assert IntegralValue(p.id, 0) == Some(p.id);
  }

  /** A text whose first character is a lower-case letter that starts no JSON literal does not parse. */
  lemma ParseRejectsLetter(text: string)
    requires text != [] && 'a' <= text[0] <= 'z' && text[0] != 'n' && text[0] != 't' && text[0] != 'f'
    ensures Parse(text).None?
  {
    assert SkipSpace(text) == text;
  }

  /** Such a text therefore goes straight to the digit fallback. */
  lemma LetterTextFallsBack(text: string)
    requires text != [] && 'a' <= text[0] <= 'z' && text[0] != 'n' && text[0] != 't' && text[0] != 'f'
    ensures DecodeScan(text) == DigitFallback(text)
  {
    ParseRejectsLetter(text);
    DecodeFallback(text);
  }

  /** The first run of digits of a text is the one after its digit-free prefix. */
  lemma {:induction false} FirstRunAfterPrefix(prefix: string, digits: string, rest: string)
    requires NoDigitBefore(prefix, |prefix|)
    requires digits != [] && AllDigits(digits)
    requires rest == [] || !IsDigit(rest[0])
    ensures FirstDigitRun(prefix + digits + rest) == Some(digits)
  {
    var text := prefix + digits + rest;
    if prefix == [] {
      assert text == digits + rest;
      LeadingDigitsOf(digits, rest);
    } else {
      assert text[0] == prefix[0];
      assert text[1..] == prefix[1..] + digits + rest;
      FirstRunAfterPrefix(prefix[1..], digits, rest);
    }
  }

  /** The fallback reads the digits that follow a digit-free prefix, up to the next non-digit. */
  lemma FallbackReadsFirstRun(prefix: string, digits: string, rest: string)
    requires NoDigitBefore(prefix, |prefix|)
    requires digits != [] && AllDigits(digits)
    requires rest == [] || !IsDigit(rest[0])
    ensures DigitFallback(prefix + digits + rest) == Decoded(Some(DecimalValue(digits)))
  {
    FirstRunAfterPrefix(prefix, digits, rest);
  }

  lemma FallbackOfEmbeddedDigits()
    ensures DigitFallback("id-is-" + "42" + "-here") == Decoded(Some(42))
  {
    FallbackReadsFirstRun("id-is-", "42", "-here");
    assert DecimalValue("42") == 42;
  }

  /** The text "id-is-42-here" is read as the id 42. */
  lemma DecodeEmbeddedDigits(text: string)
    requires text == "id-is-" + "42" + "-here"
    ensures DecodeScan(text) == Decoded(Some(42))
  {
    LetterTextFallsBack(text);
    FallbackOfEmbeddedDigits();
  }

  // ---------------------------------------------------------------- reporting a failure

  const DuplicateMarker: string := "sudah tercatat"
  const GenericRecordFailure: string := "Gagal mencatat absensi"

  /** The error toast of `recordAttendance`: a message about a duplicate is shown as it is, any other is replaced. */
  function RecordFailureText(e: ServiceError): (t: string)
    ensures t == e.Message() || t == GenericRecordFailure
  {
    if Contains(e.Message(), DuplicateMarker) then e.Message() else GenericRecordFailure
  }

  /** Every occurrence of `sub` puts each of its characters into `s`. */
  lemma ContainsNeedsChar(s: string, sub: string, k: nat)
    requires k < |sub|
    ensures Contains(s, sub) ==> sub[k] in s
  {
    if Contains(s, sub) {
      var i :| OccursAt(s, sub, i);
      assert s[i + k] == s[i..i + |sub|][k];
    }
  }

  /** A text without an 'h' cannot contain the marker. */
  lemma MarkerNeedsH(m: string)
    requires 'h' !in m
    ensures !Contains(m, DuplicateMarker)
  {
    ContainsNeedsChar(m, DuplicateMarker, 4);
  }

  /** A foreign-key message names only the table and the constraint besides its fixed words, none of which has an 'h'. */
  lemma ForeignKeyMessageWithoutH(table: string, constraint: string)
    requires 'h' !in table && 'h' !in constraint
    ensures 'h' !in ForeignKeyViolation(table, constraint)
  {
  }

  /** The two messages that are not about a foreign key have no 'h' either. */
  lemma SyntaxMessageWithoutH()
    ensures 'h' !in NotAnInteger.Message()
  {
  }

  lemma NoRowMessageWithoutH()
    ensures 'h' !in NoSingleRow.Message()
  {
  }

  /** No message of the database has an 'h'. */
  lemma DatabaseMessageWithoutH(e: ServiceError)
    requires e != AlreadyRecorded
    ensures 'h' !in e.Message()
  {
    ForeignKeyMessageWithoutH("absensi", "absensi_peserta_id_fkey");
    ForeignKeyMessageWithoutH("absensi", "absensi_sesi_id_fkey");
    SyntaxMessageWithoutH();
    NoRowMessageWithoutH();
  }

  /** A text occurs in a concatenation right after the part before it. */
  lemma OccursBetween(before: string, sub: string, after: string)
    ensures OccursAt(before + sub + after, sub, |before|)
  {
    assert (before + sub + after)[|before|..|before| + |sub|] == sub;
  }

  /** Only the "already recorded" error is shown verbatim; every other failure gets the generic text. */
  lemma OnlyDuplicateShownVerbatim(e: ServiceError)
    ensures RecordFailureText(e) == e.Message() <==> e == AlreadyRecorded
    ensures e != AlreadyRecorded ==> RecordFailureText(e) == GenericRecordFailure
  {
    if e == AlreadyRecorded {
      OccursBetween("Peserta ", DuplicateMarker, " hadir di sesi ini");
    } else {
      // The marker's fifth letter is an 'h', which no message of the database has.
      DatabaseMessageWithoutH(e);
      MarkerNeedsH(e.Message());
    }
  }

  // ---------------------------------------------------------------- the screen

  /** A toast: a confirmation or an error. */
  datatype Toast = Success(text: string) | Failure(text: string)

  const NoSessionText: string := "Pilih kegiatan terlebih dahulu!"
  const InvalidFormatText: string := "Format QR Code tidak valid!"
  const LoadSessionsFailedText: string := "Gagal memuat data kegiatan"
  const BlankIdText: string := "Masukkan ID peserta!"

  function RecordedText(name: string): string {
    "\U{2713} Absensi tercatat: " + name
  }

  /**
   * The toasts `recordAttendance` shows for the outcome of the service: the
   * participant's name on success, the failure text otherwise.
   */
  function RecordToasts(r: Result<Attendance, ServiceError>): (ts: seq<Toast>)
    ensures r.Err? ==> ts == [Failure(RecordFailureText(r.error))]
    ensures r.Ok? && r.value.participant.Some? ==> ts == [Success(RecordedText(r.value.participant.value.data.namaLengkap))]
    ensures |ts| <= 1
  {
    match r
    case Err(e) => [Failure(RecordFailureText(e))]
    case Ok(a) => if a.participant.Some? then [Success(RecordedText(a.participant.value.data.namaLengkap))] else []
  }

  /** The id `parseInt` gives the store: `NaN` is no integer at all. */
  function IdOf(n: JsNumber): (r: Option<int>)
    ensures r.Some? <==> n.Int?
    ensures r.Some? ==> r.value == n.value
  {
    match n
    case Int(v) => Some(v)
    case NaN => None
  }

  /** An id typed as it is printed is recorded as that id. */
  lemma TypedIdIsRead(k: int)
    ensures IdOf(ParseInt(IntText(k))) == Some(k)
  {
    ParseIntOfIntText(k);
  }

  /**
   * The state of the scanner screen. No selection (`null`, or the empty
   * option, which `Number('')` turns into 0) is the id 0; both are falsy.
   */
  class ScanScreen {
    var sessions: seq<Session>
    var selectedSessionId: int
    var todayAttendance: seq<Attendance>
    var isScanning: bool
    var manualId: string
    var toasts: seq<Toast>
    /**
     * The selection seen by the scanner's callback. The callback is created
     * once, by `startScanning`, and keeps the `selectedSessionId` of that
     * render; 0 before any scanner was started.
     */
    var scanSessionId: int

    constructor ()
      ensures sessions == [] && selectedSessionId == 0 && todayAttendance == []
      ensures !isScanning && manualId == "" && toasts == [] && scanSessionId == 0
    {
      sessions, selectedSessionId, todayAttendance := [], 0, [];
      isScanning, manualId, toasts := false, "", [];
      scanSessionId := 0;
    }

    /**
     * `loadSessions`: the sessions, latest first; the first one becomes the
     * selection when there is one and nothing is selected. A failed load only
     * shows an error.
     */
    method LoadSessions(store: AttendanceStore, reachable: bool)
      modifies this
      ensures reachable ==> multiset(sessions) == multiset(store.sessions) && SortedBy(sessions, LatestSessionFirst)
      ensures reachable ==>
                selectedSessionId == (if |sessions| > 0 && old(selectedSessionId) == 0 then sessions[0].id else old(selectedSessionId))
      ensures reachable ==> toasts == old(toasts)
      ensures !reachable ==> sessions == old(sessions) && selectedSessionId == old(selectedSessionId)
      ensures !reachable ==> toasts == old(toasts) + [Failure(LoadSessionsFailedText)]
      ensures todayAttendance == old(todayAttendance) && isScanning == old(isScanning) && manualId == old(manualId)
      ensures scanSessionId == old(scanSessionId)
    {
      if !reachable {
        toasts := toasts + [Failure(LoadSessionsFailedText)];
        return;
      }
      var data := store.GetSessions();
      sessions := data;
      if |data| > 0 && selectedSessionId == 0 {
        selectedSessionId := data[0].id;
      }
    }

    /** `loadTodayAttendance`: today's rows, newest first; a failure is only logged. */
    method LoadTodayAttendance(store: AttendanceStore, now: int, reachable: bool)
      requires store.Valid()
      modifies this
      ensures reachable ==>
                forall a :: multiset(RowsOf(todayAttendance))[a] == (if RecordedToday(a, now) then multiset(store.attendance)[a] else 0)
      ensures reachable ==> SortedBy(RowsOf(todayAttendance), NewestFirst)
      ensures !reachable ==> todayAttendance == old(todayAttendance)
      ensures sessions == old(sessions) && selectedSessionId == old(selectedSessionId)
      ensures isScanning == old(isScanning) && manualId == old(manualId) && toasts == old(toasts)
      ensures scanSessionId == old(scanSessionId)
    {
      if reachable {
        todayAttendance := store.GetTodayAttendance(now);
      }
    }

    /**
     * `startScanning`: refused while no session is selected; otherwise the
     * scanner starts with a callback that keeps the current selection.
     */
    method StartScanning()
      modifies this
      ensures old(selectedSessionId) == 0 ==>
                isScanning == old(isScanning) && scanSessionId == old(scanSessionId) && toasts == old(toasts) + [Failure(NoSessionText)]
      ensures old(selectedSessionId) != 0 ==> isScanning && scanSessionId == old(selectedSessionId) && toasts == old(toasts)
      ensures sessions == old(sessions) && selectedSessionId == old(selectedSessionId)
      ensures todayAttendance == old(todayAttendance) && manualId == old(manualId)
    {
      if selectedSessionId == 0 {
        toasts := toasts + [Failure(NoSessionText)];
        return;
      }
      isScanning := true;
      scanSessionId := selectedSessionId;
    }

    /** `stopScanning`. */
    method StopScanning()
      modifies this
      ensures !isScanning
      ensures sessions == old(sessions) && selectedSessionId == old(selectedSessionId)
      ensures todayAttendance == old(todayAttendance) && manualId == old(manualId) && toasts == old(toasts)
      ensures scanSessionId == old(scanSessionId)
    {
      isScanning := false;
    }

    /**
     * `recordAttendance` of the screen, as the handler of a render whose
     * selection is `sessionId`: refused while that is 0; otherwise the service
     * records the id at that session, a success reloads today's list, and the
     * outcome is reported.
     */
    method RecordAttendance(store: AttendanceStore, sessionId: int, id: Option<int>, now: int)
      returns (outcome: Option<Result<Attendance, ServiceError>>)
      requires store.Valid()
      modifies this, store
      ensures store.Valid()
      ensures outcome.None? <==> sessionId == 0
      ensures outcome.None? ==> store.attendance == old(store.attendance) && toasts == old(toasts) + [Failure(NoSessionText)]
      ensures outcome.Some? ==> toasts == old(toasts) + RecordToasts(outcome.value)
      ensures outcome.Some? ==>
                (outcome.value == Err(AlreadyRecorded) <==> id.Some? && HasRecord(old(store.attendance), id.value, sessionId))
      ensures outcome.Some? && outcome.value.Err? ==> store.attendance == old(store.attendance)
      ensures outcome.Some? && outcome.value.Ok? ==>
                && id.Some?
                && store.attendance == old(store.attendance) + [AttendanceRow(old(store.nextAttendanceId), id.value, sessionId, now)]
                && HasRecord(store.attendance, id.value, sessionId)
      ensures store.participants == old(store.participants) && store.sessions == old(store.sessions)
      ensures sessions == old(sessions) && selectedSessionId == old(selectedSessionId)
      ensures isScanning == old(isScanning) && manualId == old(manualId) && scanSessionId == old(scanSessionId)
    {
      if sessionId == 0 {
        toasts := toasts + [Failure(NoSessionText)];
        return None;
      }
      var r := store.RecordAttendance(id, sessionId, now);
      outcome := Some(r);
      match r {
        case Ok(a) =>
          if a.participant.Some? {
            toasts := toasts + [Success(RecordedText(a.participant.value.data.namaLengkap))];
            LoadTodayAttendance(store, now, true);
          }
        case Err(e) =>
          toasts := toasts + [Failure(RecordFailureText(e))];
      }
    }

    /**
     * `processQRCode`, as the handler of a render whose selection is
     * `sessionId`: refused while that is 0; a text that decodes to no id at
     * all is rejected; otherwise the decoded id is recorded at that session.
     */
    method ProcessQRCode(store: AttendanceStore, sessionId: int, text: string, now: int)
      returns (outcome: Option<Result<Attendance, ServiceError>>)
      requires store.Valid()
      modifies this, store
      ensures store.Valid()
      ensures sessionId == 0 ==> outcome.None? && toasts == old(toasts) + [Failure(NoSessionText)]
      ensures sessionId != 0 && DecodeScan(text) == InvalidFormat ==>
                outcome.None? && toasts == old(toasts) + [Failure(InvalidFormatText)]
      ensures outcome.None? ==> store.attendance == old(store.attendance)
      ensures sessionId != 0 && DecodeScan(text).Decoded? ==>
                && outcome.Some?
                && toasts == old(toasts) + RecordToasts(outcome.value)
                && (outcome.value.Ok? ==>
                      && DecodeScan(text).id.Some?
                      && store.attendance == old(store.attendance) + [AttendanceRow(old(store.nextAttendanceId), DecodeScan(text).id.value, sessionId, now)])
                && (outcome.value.Err? ==> store.attendance == old(store.attendance))
      ensures sessions == old(sessions) && selectedSessionId == old(selectedSessionId)
      ensures isScanning == old(isScanning) && manualId == old(manualId) && scanSessionId == old(scanSessionId)
    {
      if sessionId == 0 {
        toasts := toasts + [Failure(NoSessionText)];
        return None;
      }
      match DecodeScan(text) {
        case InvalidFormat =>
          toasts := toasts + [Failure(InvalidFormatText)];
          return None;
        case Decoded(id) =>
          outcome := RecordAttendance(store, sessionId, id, now);
      }
    }

    /**
     * The scanner's callback: the text is processed with the selection kept
     * when scanning started, whatever is selected now, and the scanner is
     * closed.
     */
    method OnScanned(store: AttendanceStore, text: string, now: int)
      returns (outcome: Option<Result<Attendance, ServiceError>>)
      requires store.Valid()
      modifies this, store
      ensures store.Valid()
      ensures !isScanning
      ensures old(scanSessionId) == 0 || DecodeScan(text) == InvalidFormat ==>
                outcome.None? && store.attendance == old(store.attendance)
      ensures old(scanSessionId) != 0 && DecodeScan(text).Decoded? ==>
                && outcome.Some?
                && (outcome.value.Ok? ==>
                      && DecodeScan(text).id.Some?
                      && store.attendance == old(store.attendance) + [AttendanceRow(old(store.nextAttendanceId), DecodeScan(text).id.value, old(scanSessionId), now)])
                && (outcome.value.Err? ==> store.attendance == old(store.attendance))
      ensures sessions == old(sessions) && selectedSessionId == old(selectedSessionId) && manualId == old(manualId)
      ensures scanSessionId == old(scanSessionId)
    {
      outcome := ProcessQRCode(store, scanSessionId, text, now);
      isScanning := false;
    }

    /**
     * `handleManualAttendance`: blank input is refused before anything is
     * recorded; otherwise the text goes through `parseInt`, is recorded like a
     * scanned id, and the input is cleared.
     */
    method HandleManualAttendance(store: AttendanceStore, now: int)
      returns (outcome: Option<Result<Attendance, ServiceError>>)
      requires store.Valid()
      modifies this, store
      ensures store.Valid()
      ensures Trim(old(manualId)) == "" ==>
                && outcome.None? && store.attendance == old(store.attendance)
                && toasts == old(toasts) + [Failure(BlankIdText)] && manualId == old(manualId)
      ensures Trim(old(manualId)) != "" ==> manualId == ""
      ensures Trim(old(manualId)) != "" && old(selectedSessionId) == 0 ==>
                outcome.None? && store.attendance == old(store.attendance) && toasts == old(toasts) + [Failure(NoSessionText)]
      ensures Trim(old(manualId)) != "" && old(selectedSessionId) != 0 ==>
                && outcome.Some?
                && toasts == old(toasts) + RecordToasts(outcome.value)
                && (outcome.value.Err? ==> store.attendance == old(store.attendance))
                && (outcome.value.Ok? ==>
                      && IdOf(ParseInt(old(manualId))).Some?
                      && store.attendance == old(store.attendance) + [AttendanceRow(old(store.nextAttendanceId), IdOf(ParseInt(old(manualId))).value, old(selectedSessionId), now)])
      ensures sessions == old(sessions) && selectedSessionId == old(selectedSessionId) && isScanning == old(isScanning)
      ensures scanSessionId == old(scanSessionId)
    {
      if Trim(manualId) == "" {
        toasts := toasts + [Failure(BlankIdText)];
        outcome := None;
      } else {
        ghost var text := manualId;
        var participantId := IdOf(ParseInt(manualId));
        outcome := RecordAttendance(store, selectedSessionId, participantId, now);
        manualId := "";
        assert Trim(text) != "" && participantId == IdOf(ParseInt(text));
      }
    }
  }
}
