/** The participant screen: the search and year filters, the add/edit form,
    export of the filtered list and import of a CSV file. */
module ParticipantView {
  import opened Wrappers
  import opened Seqs
  import opened Text
  import opened Types
  import opened Csv

  /** The search term occurs, ignoring the case of ASCII letters, in the
      token or in the name; the phone is not searched. */
  predicate MatchesSearch(p: Participant, term: string): (b: bool)
    ensures term == "" ==> b
    ensures b ==> |term| <= |p.tokenNo| || |term| <= |p.name|
  {
    Contains(Lower(p.tokenNo), Lower(term)) || Contains(Lower(p.name), Lower(term))
  }

  /** An empty year filter keeps every year; any other keeps that year only. */
  predicate MatchesYear(p: Participant, yearFilter: string): (b: bool)
    ensures yearFilter == "" ==> b
    ensures b && yearFilter != "" ==> p.year == yearFilter
  {
    yearFilter == "" || p.year == yearFilter
  }

  /** `filteredParticipants`: the participants passing both filters, in list
      order. */
  function FilteredParticipants(ps: seq<Participant>, term: string, yearFilter: string): (r: seq<Participant>)
    ensures IsSubsequence(r, ps)
    ensures forall p :: p in r <==> p in ps && MatchesSearch(p, term) && MatchesYear(p, yearFilter)
  {
    Filter(ps, (p: Participant) => MatchesSearch(p, term) && MatchesYear(p, yearFilter))
  }

  /** The search holds exactly when the lowercased term occurs at some
      position of the lowercased token or name. */
  lemma SearchMeaning(p: Participant, term: string)
    ensures MatchesSearch(p, term) <==>
              (exists i: nat :: OccursAt(Lower(p.tokenNo), Lower(term), i)) ||
              (exists i: nat :: OccursAt(Lower(p.name), Lower(term), i))
  {
    OccursIffContains(p.tokenNo, term);
    OccursIffContains(p.name, term);
  }

  /** The lowercased term is contained exactly when it occurs at some position. */
  lemma OccursIffContains(s: string, term: string)
    ensures Contains(Lower(s), Lower(term)) <==> exists i: nat :: OccursAt(Lower(s), Lower(term), i)
  {
    ContainsMeansOccurs(Lower(s), Lower(term));
  }

  /** The search ignores the case of the term and never looks at the phone. */
  lemma SearchIgnoresCaseAndPhone(p: Participant, term: string, phone: string)
    ensures MatchesSearch(p, term) <==> MatchesSearch(p, Lower(term))
    ensures MatchesSearch(p.(phone := phone), term) <==> MatchesSearch(p, term)
  {
    LowerIdempotent(term);
  }

  /** With no search term every participant passes the search: both filters
      empty keep the whole list, and a year filter alone keeps exactly the
      participants of that year. */
  lemma EmptySearchKeepsAll(ps: seq<Participant>, yearFilter: string)
    ensures FilteredParticipants(ps, "", "") == ps
    ensures forall p :: p in FilteredParticipants(ps, "", yearFilter) <==> p in ps && MatchesYear(p, yearFilter)
  {
    forall p: Participant ensures MatchesSearch(p, "") {
      ContainsMeansOccurs(Lower(p.tokenNo), "");
      assert OccursAt(Lower(p.tokenNo), "", 0);
    }
    FilterKeepsAll(ps, (p: Participant) => MatchesSearch(p, "") && MatchesYear(p, ""));
  }

  /** The participant export holds the header line, then one line per
      filtered participant, in the order of the list: line k is the export
      line of the k-th shown participant, which is listed and passes the
      filters. */
  lemma ExportHoldsFiltered(ps: seq<Participant>, term: string, yearFilter: string)
    requires forall i :: 0 <= i < |ps| ==>
               '\n' !in ps[i].tokenNo && '\n' !in ps[i].name && '\n' !in ps[i].phone && '\n' !in ps[i].year
    ensures var shown := FilteredParticipants(ps, term, yearFilter);
            var lines := Split(ExportParticipants(shown), '\n');
            |lines| == 1 + |shown| && lines[0] == "tokenNo,name,phone,year" &&
            (forall k :: 0 < k < |lines| ==>
               lines[k] == Join(Cells(ParticipantObject(shown[k - 1]), ParticipantHeaders), ",")) &&
            IsSubsequence(shown, ps) &&
            forall i :: 0 <= i < |shown| ==>
              shown[i] in ps && MatchesSearch(shown[i], term) && MatchesYear(shown[i], yearFilter)
  {
    var shown := FilteredParticipants(ps, term, yearFilter);
    forall i | 0 <= i < |shown|
      ensures shown[i] in ps && MatchesSearch(shown[i], term) && MatchesYear(shown[i], yearFilter)
      ensures '\n' !in shown[i].tokenNo && '\n' !in shown[i].name && '\n' !in shown[i].phone && '\n' !in shown[i].year
    {
      assert shown[i] in shown;
    }
    ParticipantExportLines(shown);
    ParticipantHeaderLine();
  }

  /** Editing sends the record being edited with the form's four fields. */
  function Merge(p: Participant, form: ParticipantFields): (r: Participant)
    ensures r.id == p.id && FieldsOf(r) == form
  {
    p.(tokenNo := form.tokenNo, name := form.name, phone := form.phone, year := form.year)
  }

  /** Submitting an edit without touching the form sends the record back as
      it was, and the merge keeps only the id of the edited record. */
  lemma MergeProperties(p: Participant, q: Participant, form: ParticipantFields)
    ensures Merge(p, FieldsOf(p)) == p
    ensures p.id == q.id ==> Merge(p, form) == Merge(q, form)
  {
  }

  /** The form as it is reset: empty, with the current year. */
  function EmptyForm(currentYear: string): ParticipantFields
  {
    ParticipantFields("", "", "", currentYear)
  }

  /** What a form submission asks of the application. */
  datatype SubmitRequest = AddRequest(fields: ParticipantFields) | EditRequest(record: Participant)

  /** The four form inputs. */
  datatype FormField = TokenField | NameField | PhoneField | YearField

  /** `forEach(p => onAddParticipant(p))`: one add request per record, in
      order. */
  method RequestAll(records: seq<Participant>) returns (requests: seq<Participant>)
    ensures requests == records
  {
    requests := [];
    for i := 0 to |records|
      invariant requests == records[..i]
    {
      requests := requests + [records[i]];
    }
    assert records[..|records|] == records;
  }

  /** `handleImport` once the file's text is read: one add request per
      record `parseCSV` returns, in import order, each with a token and a
      name. */
  method ImportFile(csvText: string, now: nat, currentYear: string) returns (requests: seq<Participant>)
    ensures requests == ParseCsv(csvText, now, currentYear)
    ensures forall i :: 0 <= i < |requests| ==> HasTokenAndName(requests[i])
  {
    var imported := ParseCsv(csvText, now, currentYear);
    requests := RequestAll(imported);
  }

  /** The import as intended: the same fan-out over the records the
      quote-aware reader returns. */
  method ImportFileQuoted(csvText: string, now: nat, currentYear: string) returns (requests: seq<Participant>)
    ensures requests == ParseCsvQuoted(csvText, now, currentYear)
    ensures forall i :: 0 <= i < |requests| ==> HasTokenAndName(requests[i])
  {
    var imported := ParseCsvQuoted(csvText, now, currentYear);
    requests := RequestAll(imported);
  }

  /** The state of the participant screen. */
  class ParticipantPanel {
    var showForm: bool
    var editing: Option<Participant>
    var searchTerm: string
    var yearFilter: string
    var form: ParticipantFields

    /** The screen opens with no filter, the form hidden and empty. */
    constructor(currentYear: string)
      ensures !showForm && editing == None && searchTerm == "" && yearFilter == ""
      ensures form == EmptyForm(currentYear)
    {
      showForm := false;
      editing := None;
      searchTerm := "";
      yearFilter := "";
      form := EmptyForm(currentYear);
    }

    /** The participants shown: the list under the current filters. */
    function Shown(participants: seq<Participant>): (r: seq<Participant>)
      reads this
      ensures IsSubsequence(r, participants)
      ensures forall p :: p in r <==> p in participants && MatchesSearch(p, searchTerm) && MatchesYear(p, yearFilter)
    {
      FilteredParticipants(participants, searchTerm, yearFilter)
    }

    /** "Add Participant" shows the form. */
    method OpenForm()
      modifies this
      ensures showForm
      ensures editing == old(editing) && form == old(form) && searchTerm == old(searchTerm) && yearFilter == old(yearFilter)
    {
      showForm := true;
    }

    /** Typing in the search box. */
    method SetSearchTerm(term: string)
      modifies this
      ensures searchTerm == term
      ensures showForm == old(showForm) && editing == old(editing) && form == old(form) && yearFilter == old(yearFilter)
    {
      searchTerm := term;
    }

    /** Choosing a year filter ("" for all years). */
    method SetYearFilter(year: string)
      modifies this
      ensures yearFilter == year
      ensures showForm == old(showForm) && editing == old(editing) && form == old(form) && searchTerm == old(searchTerm)
    {
      yearFilter := year;
    }

    /** Typing in one form input replaces that field only. */
    method SetFormField(field: FormField, value: string)
      modifies this
      ensures form == match field
                      case TokenField => old(form).(tokenNo := value)
                      case NameField => old(form).(name := value)
                      case PhoneField => old(form).(phone := value)
                      case YearField => old(form).(year := value)
      ensures showForm == old(showForm) && editing == old(editing) &&
              searchTerm == old(searchTerm) && yearFilter == old(yearFilter)
    {
      match field
      case TokenField => form := form.(tokenNo := value);
      case NameField => form := form.(name := value);
      case PhoneField => form := form.(phone := value);
      case YearField => form := form.(year := value);
    }

    /** `handleSubmit`: an edit sends the edited record with the form's
        fields, otherwise the form's fields are sent as a new participant;
        then the form is reset, hidden and no longer editing. */
    method Submit(currentYear: string) returns (request: SubmitRequest)
      modifies this
      ensures request == match old(editing)
                         case Some(p) => EditRequest(Merge(p, old(form)))
                         case None => AddRequest(old(form))
      ensures editing == None && form == EmptyForm(currentYear) && !showForm
      ensures searchTerm == old(searchTerm) && yearFilter == old(yearFilter)
    {
      match editing {
        case Some(p) =>
          request := EditRequest(Merge(p, form));
          editing := None;
        case None =>
          request := AddRequest(form);
      }
      form := EmptyForm(currentYear);
      showForm := false;
    }

    /** `handleEdit`: the chosen participant is being edited, its four
        fields fill the form, and the form is shown. */
    method Edit(p: Participant)
      modifies this
      ensures editing == Some(p) && form == FieldsOf(p) && showForm
      ensures searchTerm == old(searchTerm) && yearFilter == old(yearFilter)
    {
      editing := Some(p);
      form := FieldsOf(p);
      showForm := true;
    }

    /** "Cancel": the form is hidden, reset and no longer editing. */
    method Cancel(currentYear: string)
      modifies this
      ensures !showForm && editing == None && form == EmptyForm(currentYear)
      ensures searchTerm == old(searchTerm) && yearFilter == old(yearFilter)
    {
      showForm := false;
      editing := None;
      form := EmptyForm(currentYear);
    }
  }
}
