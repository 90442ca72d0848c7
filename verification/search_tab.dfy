/**
 * The search screen: how the form's six fields become the filters of
 * `searchParticipants`, whether any filter is active, and what a search and
 * a reset leave on the page.
 */
module SearchTab {
  import opened Wrappers
  import opened Seqs
  import opened Text
  import opened Records
  import opened Service

  /** The search form; every field is text, "" when empty. */
  datatype SearchForm = SearchForm(
    nama: string,
    desa: string,
    kelompok: string,
    jenisKelamin: string,
    usiaMin: string,
    usiaMax: string)

  /** The form's default values, which `reset()` restores. */
  const EmptyForm := SearchForm("", "", "", "", "", "")

  /** `value || undefined` for a text field. */
  function TextFilter(s: string): (o: Option<string>)
    ensures o.None? <==> s == ""
    ensures o.Some? ==> o.value == s
  {
    if s == "" then None else Some(s)
  }

  /** `value ? parseInt(value) : undefined` for an age field. */
  function AgeFilter(s: string): (o: Option<JsNumber>)
    ensures o.None? <==> s == ""
    ensures o.Some? ==> o.value == ParseInt(s)
  {
    if s == "" then None else Some(ParseInt(s))
  }

  /** The filters `onSubmit` passes to the service. */
  function FiltersOf(form: SearchForm): (f: SearchFilters)
    ensures Given(f.nama) <==> form.nama != ""
    ensures Given(f.desa) <==> form.desa != ""
    ensures Given(f.kelompok) <==> form.kelompok != ""
    ensures Given(f.jenisKelamin) <==> form.jenisKelamin != ""
    ensures BoundGiven(f.usiaMin) <==> form.usiaMin != "" && ParseInt(form.usiaMin).Truthy()
    ensures BoundGiven(f.usiaMax) <==> form.usiaMax != "" && ParseInt(form.usiaMax).Truthy()
  {
    SearchFilters(
      TextFilter(form.nama), TextFilter(form.desa), TextFilter(form.kelompok),
      TextFilter(form.jenisKelamin), AgeFilter(form.usiaMin), AgeFilter(form.usiaMax))
  }

  /** `hasActiveFilters`: some field of the form is not empty. */
  predicate HasActiveFilters(form: SearchForm) {
    form.nama != "" || form.desa != "" || form.kelompok != ""
    || form.jenisKelamin != "" || form.usiaMin != "" || form.usiaMax != ""
  }

  /** The active-filter flag is off exactly on the default form. */
  lemma ActiveUnlessDefault(form: SearchForm)
    ensures HasActiveFilters(form) <==> form != EmptyForm
  {
  }

  /** A form without active filters matches every participant. */
  lemma InactiveMatchesAll(form: SearchForm, p: Participant)
    requires !HasActiveFilters(form)
    ensures Matches(p, FiltersOf(form))
  {
  }

  /**
   * An age bound whose text parses to 0 or to NaN (such as "0" or "abc")
   * filters nothing: the search is the same as with the field left empty.
   */
  lemma UntruthyBoundsIgnored(form: SearchForm, p: Participant)
    requires !ParseInt(form.usiaMin).Truthy()
    requires !ParseInt(form.usiaMax).Truthy()
    ensures Matches(p, FiltersOf(form)) <==> Matches(p, FiltersOf(form.(usiaMin := "", usiaMax := "")))
  {
  }

  /** A bound of "0" is parsed to 0, which is not truthy. */
  lemma ZeroBoundIgnored(form: SearchForm, p: Participant)
    requires form.usiaMin == "0"
    ensures Matches(p, FiltersOf(form)) <==> Matches(p, FiltersOf(form.(usiaMin := "")))
  {
    ParseIntOfDigits(form.usiaMin);
    assert DecimalValue(form.usiaMin) == 0;
  }

  /** A bound given as digits constrains the age by that number. */
  lemma DigitBoundConstrains(form: SearchForm, p: Participant)
    requires form.usiaMin != "" && AllDigits(form.usiaMin) && DecimalValue(form.usiaMin) != 0
    requires Matches(p, FiltersOf(form))
    ensures p.data.usia.Some? && p.data.usia.value >= DecimalValue(form.usiaMin)
  {
    ParseIntOfDigits(form.usiaMin);
  }

  // ---------------------------------------------------------------- page state

  /** What the page shows: the form, the results, whether a search was made, and the spinner. */
  datatype SearchPage = SearchPage(form: SearchForm, participants: seq<Participant>, hasSearched: bool, loading: bool)

  /**
   * `onSubmit`: the search with the form's filters. The results are exactly
   * the matching participants, ordered by name; a failed search (`reachable`
   * false) leaves an empty list.
   */
  method Submit(store: AttendanceStore, page: SearchPage, reachable: bool) returns (next: SearchPage)
    ensures next.form == page.form && next.hasSearched && !next.loading
    ensures reachable ==>
              forall p :: multiset(next.participants)[p] ==
                          if Matches(p, FiltersOf(page.form)) then multiset(store.participants)[p] else 0
    ensures reachable ==> SortedBy(next.participants, ByName)
    ensures !reachable ==> next.participants == []
  {
    var results: seq<Participant> := [];
    if reachable {
      results := store.SearchParticipants(FiltersOf(page.form));
    }
    next := SearchPage(page.form, results, true, false);
  }

  /** `handleReset`: the default form, no results, and no search made. */
  function Reset(page: SearchPage): (r: SearchPage)
    ensures !HasActiveFilters(r.form)
    ensures r.participants == [] && !r.hasSearched && r.loading == page.loading
  {
    SearchPage(EmptyForm, [], false, page.loading)
  }

  /** Searching right after a reset finds every participant. */
  lemma ResetThenSearchFindsAll(page: SearchPage, p: Participant)
    ensures Matches(p, FiltersOf(Reset(page).form))
  {
    InactiveMatchesAll(Reset(page).form, p);
  }
}
