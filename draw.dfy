/** The draw screen: finding a participant by token, the random pick among
    participants without a prize in the selected year, and the checks that
    guard the assignment of a prize. */
module Draw {
  import opened Wrappers
  import opened Seqs
  import opened Text
  import opened Types

  /** `w` records a prize of participant `pid` in `year`. */
  predicate WonIn(w: Winner, pid: string, year: string)
  {
    w.participant.id == pid && w.year == year
  }

  /** `winners.some(...)`: participant `pid` already has a prize in `year`. */
  predicate HasRecord(ws: seq<Winner>, pid: string, year: string)
  {
    exists j :: 0 <= j < |ws| && WonIn(ws[j], pid, year)
  }

  /** Some record holds rank `rank` in `year`. */
  predicate RankHeld(ws: seq<Winner>, rank: string, year: string)
  {
    exists j :: 0 <= j < |ws| && ws[j].rank == rank && ws[j].year == year
  }

  /** The test for a record of participant `pid` in `year`. */
  function WinsOf(pid: string, year: string): Winner -> bool
  {
    (w: Winner) => WonIn(w, pid, year)
  }

  /** Two records that may stand on the same list: in the same year they are
      for different participants, and not for the same 1st, 2nd or 3rd prize. */
  predicate Compatible(a: Winner, b: Winner)
  {
    a.year == b.year ==>
      a.participant.id != b.participant.id && !(a.rank == b.rank && a.rank in LimitedRankNames)
  }

  /** The invariant the draw maintains over the winners list: at most one
      record per participant and year, at most one per limited rank and year. */
  ghost predicate Consistent(ws: seq<Winner>): (ok: bool)
    ensures ok ==> forall i, j :: 0 <= i < j < |ws| && ws[i].year == ws[j].year ==>
                     ws[i].participant.id != ws[j].participant.id
    ensures ok ==> forall i, j :: 0 <= i < j < |ws| && ws[i].year == ws[j].year && ws[i].rank in LimitedRankNames ==>
                     ws[i].rank != ws[j].rank
  {
    Pairwise(ws, Compatible)
  }

  /** The search result for a token: the first participant whose token equals
      the input without its surrounding whitespace, compared exactly. */
  function FindByToken(ps: seq<Participant>, tokenInput: string): (r: Option<Participant>)
    ensures r.None? <==> forall j :: 0 <= j < |ps| ==> ps[j].tokenNo != Trim(tokenInput)
    ensures r.Some? ==> exists k :: 0 <= k < |ps| && ps[k] == r.value && r.value.tokenNo == Trim(tokenInput) &&
                                    forall j :: 0 <= j < k ==> ps[j].tokenNo != Trim(tokenInput)
  {
    Find(ps, (p: Participant) => p.tokenNo == Trim(tokenInput))
  }

  /** The participants eligible for the random pick: those without a record
      in `year`, in list order. */
  function Available(ps: seq<Participant>, ws: seq<Winner>, year: string): (r: seq<Participant>)
    ensures IsSubsequence(r, ps)
    ensures forall p :: p in r <==> p in ps && !HasRecord(ws, p.id, year)
    ensures r == [] <==> forall i :: 0 <= i < |ps| ==> HasRecord(ws, ps[i].id, year)
  {
    Filter(ps, (p: Participant) => !HasRecord(ws, p.id, year))
  }

  /** `Math.floor(roll * n)` for a roll in [0, 1): a position among n. */
  function PickIndex(roll: real, n: nat): (i: nat)
    requires 0.0 <= roll < 1.0 && n > 0
    ensures i < n
  {
    var x := roll * n as real;
    assert 0.0 <= x < n as real by {
      assert roll * n as real < 1.0 * n as real;
    }
    x.Floor
  }

  /** Why an assignment is refused. */
  datatype AssignError = NoSelection | AlreadyWon(heldRank: string) | RankTaken

  /** The assignment checks, in the order the screen runs them: a participant
      must be selected; it must not have a record in the year (the refusal
      names the rank of its first record); a 1st, 2nd or 3rd prize must be
      free in the year, while Consolation and Special may be given any number
      of times. On success the record to store is the selected participant
      with the rank, the year and the assignment time. */
  function Assign(selection: Option<Participant>, rank: PrizeRank, year: string, ws: seq<Winner>,
                  assignedAt: string): (r: Result<WinnerDraft, AssignError>)
    ensures selection.None? ==> r == Err(NoSelection)
    ensures selection.Some? && HasRecord(ws, selection.value.id, year) ==>
              r.Err? && r.error.AlreadyWon? &&
              exists k :: 0 <= k < |ws| && WonIn(ws[k], selection.value.id, year) && r.error.heldRank == ws[k].rank &&
                          forall j :: 0 <= j < k ==> !WonIn(ws[j], selection.value.id, year)
    ensures (selection.Some? && !HasRecord(ws, selection.value.id, year) &&
             RankName(rank) in LimitedRankNames && RankHeld(ws, RankName(rank), year)) ==> r == Err(RankTaken)
    ensures r.Ok? <==> selection.Some? && !HasRecord(ws, selection.value.id, year) &&
                       !(RankName(rank) in LimitedRankNames && RankHeld(ws, RankName(rank), year))
    ensures r.Ok? ==> r.value == WinnerDraft(selection.value, RankName(rank), year, assignedAt)
  {
    match selection
    case None => Err(NoSelection)
    case Some(p) =>
      match Find(ws, WinsOf(p.id, year))
      case Some(existing) => Err(AlreadyWon(existing.rank))
      case None =>
        var taken := Find(ws, (w: Winner) => w.rank == RankName(rank) && w.year == year);
        if taken.Some? && RankName(rank) in LimitedRankNames then Err(RankTaken)
        else Ok(WinnerDraft(p, RankName(rank), year, assignedAt))
  }

  /** Consolation and Special prizes are never refused for their rank: with
      a selection, they are refused only when the participant already has a
      record in the year. */
  lemma UnlimitedRankNeverTaken(p: Participant, rank: PrizeRank, year: string, ws: seq<Winner>, assignedAt: string)
    requires rank == ConsolationPrize || rank == SpecialPrize
    ensures Assign(Some(p), rank, year, ws, assignedAt).Ok? <==> !HasRecord(ws, p.id, year)
  {
    assert RankName(rank) !in LimitedRankNames by {
      assert LimitedRankNames == ["1st Prize", "2nd Prize", "3rd Prize"];
    }
  }

  const NoSelectionMessage := "Please select a participant first"
  const NotFoundMessage := "Participant not found with this token number"
  const NoneAvailableMessage := "No available participants for random selection"

  /** The error text shown for a refused assignment. */
  function ErrorMessage(e: AssignError, rank: PrizeRank, year: string): (m: string)
    ensures m != ""
  {
    match e
    case NoSelection => NoSelectionMessage
    case AlreadyWon(held) => "This participant has already won \"" + held + "\" in " + year
    case RankTaken => RankName(rank) + " has already been assigned for " + year
  }

  /** The record the store returns for a draft carries the draft's
      participant, rank, year and time. */
  predicate Records(w: Winner, d: WinnerDraft)
  {
    w.participant == d.participant && w.rank == d.rank && w.year == d.year && w.assignedAt == d.assignedAt
  }

  /** A successful assignment, appended to a consistent winners list, keeps
      it consistent. */
  lemma AssignKeepsConsistency(selection: Option<Participant>, rank: PrizeRank, year: string, ws: seq<Winner>,
                               assignedAt: string, w: Winner)
    requires Consistent(ws)
    requires Assign(selection, rank, year, ws, assignedAt).Ok?
    requires Records(w, Assign(selection, rank, year, ws, assignedAt).value)
    ensures Consistent(ws + [w])
  {
    var all := ws + [w];
    forall i, j | 0 <= i < j < |all| ensures Compatible(all[i], all[j]) {
      if j < |ws| {
        assert all[i] == ws[i] && all[j] == ws[j];
      } else {
        assert all[i] == ws[i] && all[j] == w;
        assert !WonIn(ws[i], w.participant.id, year);
      }
    }
  }

  /** Once a 1st, 2nd or 3rd prize of a year is stored, assigning it again
      in that year fails: for another participant without a record in the
      year because the rank is taken, for the same participant because it
      already won. */
  lemma LimitedRankTakenAfterAssign(p: Participant, rank: PrizeRank, year: string, ws: seq<Winner>,
                                    assignedAt: string, w: Winner, q: Participant, later: string)
    requires RankName(rank) in LimitedRankNames
    requires Assign(Some(p), rank, year, ws, assignedAt).Ok?
    requires Records(w, Assign(Some(p), rank, year, ws, assignedAt).value)
    ensures Assign(Some(q), rank, year, ws + [w], later).Err?
    ensures q.id != p.id && !HasRecord(ws, q.id, year) ==> Assign(Some(q), rank, year, ws + [w], later) == Err(RankTaken)
    ensures q.id == p.id ==> Assign(Some(q), rank, year, ws + [w], later) == Err(AlreadyWon(RankName(rank)))
  {
    var all := ws + [w];
    assert all[|ws|] == w;
    if q.id == p.id {
      forall j | 0 <= j < |ws| ensures !WinsOf(q.id, year)(all[j]) {
        assert all[j] == ws[j];
      }
      assert WinsOf(q.id, year)(all[|ws|]);
      FirstIndexUnique(all, WinsOf(q.id, year), |ws|);
    } else if !HasRecord(ws, q.id, year) {
      assert RankHeld(all, RankName(rank), year);
      forall j | 0 <= j < |all| ensures !WonIn(all[j], q.id, year) {
        if j < |ws| {
          assert all[j] == ws[j];
        }
      }
    }
  }

  /** A record of another year adds no record and holds no rank in `year`. */
  lemma AppendOtherYear(ws: seq<Winner>, w: Winner, id: string, rank: string, year: string)
    requires w.year != year
    ensures HasRecord(ws + [w], id, year) <==> HasRecord(ws, id, year)
    ensures RankHeld(ws + [w], rank, year) <==> RankHeld(ws, rank, year)
  {
    var all := ws + [w];
    if HasRecord(all, id, year) {
      var j :| 0 <= j < |all| && WonIn(all[j], id, year);
      assert j < |ws| && all[j] == ws[j];
    }
    if HasRecord(ws, id, year) {
      var j :| 0 <= j < |ws| && WonIn(ws[j], id, year);
      assert all[j] == ws[j];
    }
    if RankHeld(all, rank, year) {
      var j :| 0 <= j < |all| && all[j].rank == rank && all[j].year == year;
      assert j < |ws| && all[j] == ws[j];
    }
    if RankHeld(ws, rank, year) {
      var j :| 0 <= j < |ws| && ws[j].rank == rank && ws[j].year == year;
      assert all[j] == ws[j];
    }
  }

  /** A record of another year changes no assignment decision. */
  lemma OtherYearUnaffected(selection: Option<Participant>, rank: PrizeRank, year: string, ws: seq<Winner>,
                            assignedAt: string, w: Winner)
    requires w.year != year
    ensures Assign(selection, rank, year, ws + [w], assignedAt) == Assign(selection, rank, year, ws, assignedAt)
  {
    if selection.Some? {
      AppendOtherYear(ws, w, selection.value.id, RankName(rank), year);
      if HasRecord(ws, selection.value.id, year) {
        OtherYearSameRefusal(selection.value, rank, year, ws, assignedAt, w);
      }
    }
  }

  /** A participant who already won in `year` is refused with the same rank
      when a record of another year is appended. */
  lemma OtherYearSameRefusal(p: Participant, rank: PrizeRank, year: string, ws: seq<Winner>,
                             assignedAt: string, w: Winner)
    requires w.year != year && HasRecord(ws, p.id, year)
    ensures Assign(Some(p), rank, year, ws + [w], assignedAt) == Assign(Some(p), rank, year, ws, assignedAt)
  {
    var k :| 0 <= k < |ws| && WonIn(ws[k], p.id, year);
    assert WinsOf(p.id, year)(ws[k]);
    FindAppend(ws, w, WinsOf(p.id, year));
  }

  /** `winners.slice(-5).reverse()`: the five latest records, latest first. */
  function RecentWinners(ws: seq<Winner>): (r: seq<Winner>)
    ensures |r| == if |ws| < 5 then |ws| else 5
    ensures forall k :: 0 <= k < |r| ==> r[k] == ws[|ws| - 1 - k]
  {
    var m := if |ws| < 5 then |ws| else 5;
    Reversed(ws[|ws| - m..])
  }

  /** The state of the draw screen. */
  class DrawPanel {
    var tokenInput: string
    var selected: Option<Participant>
    var selectedRank: PrizeRank
    var selectedYear: string
    var error: string

    /** The screen opens on 1st Prize in the current year, with nothing
        selected. */
    constructor(currentYear: string)
      ensures tokenInput == "" && selected == None && error == ""
      ensures selectedRank == FirstPrize && selectedYear == currentYear
    {
      tokenInput := "";
      selected := None;
      selectedRank := FirstPrize;
      selectedYear := currentYear;
      error := "";
    }

    /** Typing in the token box. */
    method SetTokenInput(text: string)
      modifies this
      ensures tokenInput == text
      ensures selected == old(selected) && selectedRank == old(selectedRank) &&
              selectedYear == old(selectedYear) && error == old(error)
    {
      tokenInput := text;
    }

    /** Choosing a year. */
    method SetYear(year: string)
      modifies this
      ensures selectedYear == year
      ensures tokenInput == old(tokenInput) && selected == old(selected) &&
              selectedRank == old(selectedRank) && error == old(error)
    {
      selectedYear := year;
    }

    /** Choosing a rank. */
    method SetRank(rank: PrizeRank)
      modifies this
      ensures selectedRank == rank
      ensures tokenInput == old(tokenInput) && selected == old(selected) &&
              selectedYear == old(selectedYear) && error == old(error)
    {
      selectedRank := rank;
    }

    /** `searchParticipant`: select the first participant with the typed
        token, or clear the selection and report that none has it. */
    method SearchParticipant(participants: seq<Participant>)
      modifies this
      ensures selected == FindByToken(participants, tokenInput)
      ensures error == if selected.None? then NotFoundMessage else ""
      ensures tokenInput == old(tokenInput) && selectedRank == old(selectedRank) && selectedYear == old(selectedYear)
    {
      var found := FindByToken(participants, tokenInput);
      if found.Some? {
        selected := found;
        error := "";
      } else {
        selected := None;
        error := NotFoundMessage;
      }
    }

    /** `getRandomParticipant`: pick the participant at `Math.floor(roll * n)`
        among the n available ones and put its token in the box; when none is
        available, only report it. */
    method RandomPick(participants: seq<Participant>, winners: seq<Winner>, roll: real)
      requires 0.0 <= roll < 1.0
      modifies this
      ensures var avail := Available(participants, winners, selectedYear);
              if avail == [] then
                error == NoneAvailableMessage && selected == old(selected) && tokenInput == old(tokenInput)
              else
                selected == Some(avail[PickIndex(roll, |avail|)]) &&
                tokenInput == selected.value.tokenNo && error == ""
      ensures selected != old(selected) ==>
                selected.Some? && selected.value in participants && !HasRecord(winners, selected.value.id, selectedYear)
      ensures selectedYear == old(selectedYear) && selectedRank == old(selectedRank)
    {
      var avail := Available(participants, winners, selectedYear);
      if avail == [] {
        error := NoneAvailableMessage;
      } else {
        var pick := avail[PickIndex(roll, |avail|)];
        assert pick in participants && !HasRecord(winners, pick.id, selectedYear) by {
          assert pick in avail;
        }
        selected := Some(pick);
        tokenInput := pick.tokenNo;
        error := "";
      }
    }

    /** `assignWinner`: run the checks; on success hand the record to the
        store (the result) and clear selection, token and error; on refusal
        show the reason and keep the selection. */
    method AssignWinner(winners: seq<Winner>, assignedAt: string) returns (emitted: Option<WinnerDraft>)
      modifies this
      ensures var r := Assign(old(selected), selectedRank, selectedYear, winners, assignedAt);
              match r
              case Ok(d) => emitted == Some(d) && selected == None && tokenInput == "" && error == ""
              case Err(e) => emitted == None && error == ErrorMessage(e, selectedRank, selectedYear) &&
                             selected == old(selected) && tokenInput == old(tokenInput)
      ensures selectedRank == old(selectedRank) && selectedYear == old(selectedYear)
    {
      var r := Assign(selected, selectedRank, selectedYear, winners, assignedAt);
      match r
      case Err(e) =>
        error := ErrorMessage(e, selectedRank, selectedYear);
        emitted := None;
      case Ok(d) =>
        emitted := Some(d);
        selected := None;
        tokenInput := "";
        error := "";
    }
  }
}
