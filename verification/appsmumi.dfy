/**
 * The static part of the service library: the group-to-village table and the
 * option lists derived from it, the age computation, and the record that a
 * participant's QR code carries.
 */
module AppsMumi {
  import opened Wrappers
  import opened Seqs
  import opened Json
  import opened Records
  import JsonRoundTrip

  // ---------------------------------------------------------------- group -> village table

  /** Each group (`kelompok`) and the village (`desa`) it belongs to, in declaration order. */
  const KelompokDesaMap: seq<(string, string)> := [
    ("TEGAL ALUR A", "KALIDERES"),
    ("TEGAL ALUR B", "KALIDERES"),
    ("PREPEDAN A", "KALIDERES"),
    ("PREPEDAN B", "KALIDERES"),
    ("KEBON KELAPA", "KALIDERES"),
    ("FAJAR A", "CENGKARENG"),
    ("FAJAR B", "CENGKARENG"),
    ("FAJAR C", "CENGKARENG"),
    ("PRIMA", "BANDARA"),
    ("RAWA LELE", "BANDARA"),
    ("KAMPUNG DURI", "BANDARA"),
    ("DAMAI", "JELAMBAR"),
    ("JAYA", "JELAMBAR"),
    ("INDAH", "JELAMBAR"),
    ("PEJAGALAN", "JELAMBAR"),
    ("BGN", "KAPUK MELATI"),
    ("MELATI A", "KAPUK MELATI"),
    ("MELATI B", "KAPUK MELATI"),
    ("GRIYA PERMATA", "CIPONDOH"),
    ("SEMANAN A", "CIPONDOH"),
    ("SEMANAN B", "CIPONDOH"),
    ("PONDOK BAHAR", "CIPONDOH"),
    ("KEBON JAHE A", "KEBON JAHE"),
    ("KEBON JAHE B", "KEBON JAHE"),
    ("GARIKAS", "KEBON JAHE"),
    ("TANIWAN", "KEBON JAHE"),
    ("TAMAN KOTA A", "TAMAN KOTA"),
    ("TAMAN KOTA B", "TAMAN KOTA"),
    ("RAWA BUAYA A", "TAMAN KOTA"),
    ("RAWA BUAYA B", "TAMAN KOTA")
  ]

  /** The value stored under `key` in an association list whose keys are distinct. */
  function Lookup(table: seq<(string, string)>, key: string): (r: Option<string>)
    ensures r.Some? <==> exists i :: 0 <= i < |table| && table[i].0 == key
    ensures r.Some? ==> exists i :: 0 <= i < |table| && table[i] == (key, r.value)
  {
    if table == [] then None
    else if table[0].0 == key then Some(table[0].1)
    else
      var r := Lookup(table[1..], key);
      assert forall i :: 0 <= i < |table[1..]| ==> table[1..][i] == table[i + 1];
      r
  }

  /** `KELOMPOK_DESA_MAP[kelompok]`: the village of a group, `None` for a group the table does not list. */
  function DesaOf(kelompok: string): Option<string> {
    Lookup(KelompokDesaMap, kelompok)
  }

  /** `KELOMPOK_OPTIONS`: the groups, in the table's order. */
  function KelompokOptions(): (r: seq<string>)
    ensures |r| == |KelompokDesaMap|
    ensures forall i :: 0 <= i < |r| ==> r[i] == KelompokDesaMap[i].0
  {
    seq(|KelompokDesaMap|, i requires 0 <= i < |KelompokDesaMap| => KelompokDesaMap[i].0)
  }

  /** The villages of the table, one per group, in the table's order. */
  function Villages(): (r: seq<string>)
    ensures |r| == |KelompokDesaMap|
    ensures forall i :: 0 <= i < |r| ==> r[i] == KelompokDesaMap[i].1
  {
    seq(|KelompokDesaMap|, i requires 0 <= i < |KelompokDesaMap| => KelompokDesaMap[i].1)
  }

  /** `DESA_OPTIONS`: the distinct villages, in order of first appearance. */
  function DesaOptions(): seq<string> {
    Distinct(Villages())
  }

  /** A group has a village exactly when it is one of the group options. */
  lemma GroupOptionsAreMapped(kelompok: string)
    ensures DesaOf(kelompok).Some? <==> kelompok in KelompokOptions()
  {
    var ks := KelompokOptions();
    if kelompok in ks {
      var i :| 0 <= i < |ks| && ks[i] == kelompok;
      assert KelompokDesaMap[i].0 == kelompok;
    }
  }

  /** Every village a group maps to is a village option, and every village option is some group's village. */
  lemma VillageOptionsAreMappedValues(desa: string)
    ensures desa in DesaOptions() <==> exists kelompok :: DesaOf(kelompok) == Some(desa)
  {
    if desa in DesaOptions() {
      VillageOptionIsMapped(desa);
    }
    if exists kelompok :: DesaOf(kelompok) == Some(desa) {
      var kelompok :| DesaOf(kelompok) == Some(desa);
      MappedVillageIsOption(kelompok, desa);
    }
  }

  /** The village of a listed group is a village option. */
  lemma MappedVillageIsOption(kelompok: string, desa: string)
    requires DesaOf(kelompok) == Some(desa)
    ensures desa in DesaOptions()
  {
    var vs := Villages();
    var i :| 0 <= i < |KelompokDesaMap| && KelompokDesaMap[i] == (kelompok, desa);
    assert vs[i] == desa;
    assert desa in vs;
  }

  /** A village option is the village of the first group listed with it. */
  lemma VillageOptionIsMapped(desa: string)
    requires desa in DesaOptions()
    ensures exists kelompok :: DesaOf(kelompok) == Some(desa)
  {
    var vs := Villages();
    assert desa in vs;
    var i :| 0 <= i < |vs| && vs[i] == desa;
    KeysDistinct();
    LookupOfDistinct(KelompokDesaMap, i);
    assert DesaOf(KelompokDesaMap[i].0) == Some(desa);
  }

  /** No group is listed twice. */
  lemma KeysDistinct()
    ensures forall a, b :: 0 <= a < b < |KelompokDesaMap| ==> KelompokDesaMap[a].0 != KelompokDesaMap[b].0
  {
  }

  /** In a table with distinct keys, looking up the key of entry `i` yields the value of entry `i`. */
  lemma {:induction false} LookupOfDistinct(table: seq<(string, string)>, i: nat)
    requires i < |table|
    requires forall a, b :: 0 <= a < b < |table| ==> table[a].0 != table[b].0
    ensures Lookup(table, table[i].0) == Some(table[i].1)
  {
    if i > 0 {
      assert table[0].0 != table[i].0;
      LookupOfDistinct(table[1..], i - 1);
    }
  }

  // ---------------------------------------------------------------- age

  /** The date `years` years after `d`, on the same month and day. */
  function Anniversary(d: Date, years: int): Date {
    Date(d.year + years, d.month, d.day)
  }

  /**
   * `calculateAge`: the difference of the years, one less when today's month
   * and day come before the birthday's. That is the number of birthdays
   * reached: the `age`-th anniversary is not after today, the next one is.
   */
  function CalculateAge(birth: Date, today: Date): (age: int)
    ensures DateLe(Anniversary(birth, age), today)
    ensures !DateLe(Anniversary(birth, age + 1), today)
  {
    var age := today.year - birth.year;
    var monthDiff := today.month - birth.month;
    if monthDiff < 0 || (monthDiff == 0 && today.day < birth.day) then age - 1 else age
  }

  /** The age is the only count of years whose anniversary has been reached while the next has not. */
  lemma AgeIsCompletedYears(birth: Date, today: Date, n: int)
    requires DateLe(Anniversary(birth, n), today) && !DateLe(Anniversary(birth, n + 1), today)
    ensures n == CalculateAge(birth, today)
  {
  }

  /** Nobody born on or before today has a negative age. */
  lemma AgeNonNegative(birth: Date, today: Date)
    requires DateLe(birth, today)
    ensures CalculateAge(birth, today) >= 0
  {
  }

  // ---------------------------------------------------------------- QR payload

  /**
   * The record `generateQRCode` encodes: id, name, gender, age, group and
   * village. The participant comes from a table row, where a missing age is
   * NULL, so `usia` is written as `null` rather than left out.
   */
  function QrPayload(p: Participant): (v: Json)
    ensures v.JObject? && |v.members| == 6
    ensures Property(v, "id") == Some(JNumber(p.id, 0))
    ensures Property(v, "nama") == Some(JString(p.data.namaLengkap))
    ensures Property(v, "jenis_kelamin") == Some(JString(JenisKelaminText(p.data.jenisKelamin)))
    ensures Property(v, "kelompok") == Some(JString(p.data.kelompok))
    ensures Property(v, "desa") == Some(JString(p.data.desa))
    ensures Property(v, "usia") == Some(if p.data.usia.Some? then JNumber(p.data.usia.value, 0) else JNull)
  {
    QrMembersEarly(p);
    QrMembersLate(p);
    JObject(QrMembers(p))
  }

  /** The members of `qrData`, in the order the object literal writes them. */
  function QrMembers(p: Participant): seq<Member> {
    [Member("id", JNumber(p.id, 0)),
     Member("nama", JString(p.data.namaLengkap)),
     Member("jenis_kelamin", JString(JenisKelaminText(p.data.jenisKelamin))),
     Member("usia", if p.data.usia.Some? then JNumber(p.data.usia.value, 0) else JNull),
     Member("kelompok", JString(p.data.kelompok)),
     Member("desa", JString(p.data.desa))]
  }

  lemma QrMembersEarly(p: Participant)
    ensures LastMember(QrMembers(p), "id") == Some(JNumber(p.id, 0))
    ensures LastMember(QrMembers(p), "nama") == Some(JString(p.data.namaLengkap))
    ensures LastMember(QrMembers(p), "jenis_kelamin") == Some(JString(JenisKelaminText(p.data.jenisKelamin)))
  {
    var members := QrMembers(p);
    LastMemberAt(members, "id", 0);
    LastMemberAt(members, "nama", 1);
    LastMemberAt(members, "jenis_kelamin", 2);
  }

  lemma QrMembersLate(p: Participant)
    ensures LastMember(QrMembers(p), "usia") == Some(if p.data.usia.Some? then JNumber(p.data.usia.value, 0) else JNull)
    ensures LastMember(QrMembers(p), "kelompok") == Some(JString(p.data.kelompok))
    ensures LastMember(QrMembers(p), "desa") == Some(JString(p.data.desa))
  {
    var members := QrMembers(p);
    LastMemberAt(members, "usia", 3);
    LastMemberAt(members, "kelompok", 4);
    LastMemberAt(members, "desa", 5);
  }

  /** `JSON.stringify(qrData)`: the text the QR code holds. */
  function QrText(p: Participant): string {
    Serialize(QrPayload(p))
  }

  /** Parsing the QR text gives back the payload record. */
  lemma QrTextRoundTrip(p: Participant)
    ensures Parse(QrText(p)) == Some(QrPayload(p))
  {
    JsonRoundTrip.ParseSerialize(QrPayload(p));
  }
}
