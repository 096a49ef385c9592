/** The application state: the participant and winner lists and the handlers
    that update them after the store has answered. */
module App {
  import opened Wrappers
  import opened Seqs
  import opened Types
  import opened Draw

  /** The list after an edit: every record with the returned record's id is
      replaced by it. Positions and ids do not change; when no record has the
      id, nothing changes. */
  function ReplaceById(ps: seq<Participant>, res: Participant): (r: seq<Participant>)
    ensures |r| == |ps|
    ensures forall i :: 0 <= i < |ps| ==> r[i].id == ps[i].id
    ensures forall i :: 0 <= i < |ps| && ps[i].id == res.id ==> r[i] == res
    ensures forall i :: 0 <= i < |ps| && ps[i].id != res.id ==> r[i] == ps[i]
  {
    if ps == [] then []
    else [if ps[0].id == res.id then res else ps[0]] + ReplaceById(ps[1..], res)
  }

  /** Editing a record that is not on the list leaves the list as it was, and
      editing twice with the same record is editing once. */
  lemma {:induction false} ReplaceByIdProperties(ps: seq<Participant>, res: Participant)
    ensures (forall i :: 0 <= i < |ps| ==> ps[i].id != res.id) ==> ReplaceById(ps, res) == ps
    ensures ReplaceById(ReplaceById(ps, res), res) == ReplaceById(ps, res)
  {
    var once := ReplaceById(ps, res);
    var twice := ReplaceById(once, res);
    assert |twice| == |once|;
    forall i | 0 <= i < |ps| ensures twice[i] == once[i] {
      if ps[i].id == res.id {
        assert once[i] == res;
      }
    }
    if forall i :: 0 <= i < |ps| ==> ps[i].id != res.id {
      assert |once| == |ps|;
      forall i | 0 <= i < |ps| ensures once[i] == ps[i] {
      }
    }
  }

  /** The participants after deleting the one with id `id`. */
  function WithoutParticipant(ps: seq<Participant>, id: string): (r: seq<Participant>)
    ensures IsSubsequence(r, ps)
    ensures forall p :: p in r <==> p in ps && p.id != id
  {
    Filter(ps, (p: Participant) => p.id != id)
  }

  /** The winners left after deleting participant `id`: its records go with it. */
  function WithoutWinnersOf(ws: seq<Winner>, id: string): (r: seq<Winner>)
    ensures IsSubsequence(r, ws)
    ensures forall w :: w in r <==> w in ws && w.participant.id != id
  {
    Filter(ws, (w: Winner) => w.participant.id != id)
  }

  /** The winners after deleting the record with id `id`. */
  function WithoutWinner(ws: seq<Winner>, id: string): (r: seq<Winner>)
    ensures IsSubsequence(r, ws)
    ensures forall w :: w in r <==> w in ws && w.id != id
  {
    Filter(ws, (w: Winner) => w.id != id)
  }

  /** Every record on the winners list is for a participant on the list. */
  ghost predicate WinnersListed(ps: seq<Participant>, ws: seq<Winner>)
  {
    forall w :: w in ws ==> exists p :: p in ps && p.id == w.participant.id
  }

  /** The cascade delete keeps winners pointing at listed participants, and
      the deleted participant has neither a record nor a prize left. */
  lemma CascadeKeepsReferences(ps: seq<Participant>, ws: seq<Winner>, id: string)
    requires WinnersListed(ps, ws)
    ensures WinnersListed(WithoutParticipant(ps, id), WithoutWinnersOf(ws, id))
    ensures forall p :: p in WithoutParticipant(ps, id) ==> p.id != id
    ensures forall w :: w in WithoutWinnersOf(ws, id) ==> w.participant.id != id
  {
    var ps' := WithoutParticipant(ps, id);
    forall w | w in WithoutWinnersOf(ws, id) ensures exists p :: p in ps' && p.id == w.participant.id {
      var p :| p in ps && p.id == w.participant.id;
      assert p in ps';
    }
  }

  /** Deleting records, one or all of a participant's, keeps the winners
      list consistent. */
  lemma DeletesKeepConsistency(ws: seq<Winner>, id: string)
    requires Consistent(ws)
    ensures Consistent(WithoutWinnersOf(ws, id))
    ensures Consistent(WithoutWinner(ws, id))
  {
    SubsequenceKeepsPairwise(WithoutWinnersOf(ws, id), ws, Compatible);
    SubsequenceKeepsPairwise(WithoutWinner(ws, id), ws, Compatible);
  }

  /** A tab of the navigation bar with its badge, if it has one. */
  datatype Tab = Tab(name: string, count: Option<nat>)

  /** The lists the application holds. */
  class AppState {
    var participants: seq<Participant>
    var winners: seq<Winner>

    /** The state once both lists have been loaded from the store. */
    constructor(loadedParticipants: seq<Participant>, loadedWinners: seq<Winner>)
      ensures participants == loadedParticipants && winners == loadedWinners
    {
      participants := loadedParticipants;
      winners := loadedWinners;
    }

    /** The navigation tabs: the participant and winner badges count the
        lists, the draw tab has none. */
    function Tabs(): (tabs: seq<Tab>)
      reads this
      ensures |tabs| == 3
      ensures tabs[0].count == Some(|participants|) && tabs[1].count.None? && tabs[2].count == Some(|winners|)
    {
      [Tab("Participants", Some(|participants|)), Tab("Draw", None), Tab("Winners", Some(|winners|))]
    }

    /** `handleAddParticipant`: the record the store returns is appended. */
    method AddParticipant(stored: Participant)
      modifies this
      ensures participants == old(participants) + [stored]
      ensures winners == old(winners)
    {
      participants := participants + [stored];
    }

    /** `handleEditParticipant`: the record the store returns replaces the
        records with its id. */
    method EditParticipant(res: Participant)
      modifies this
      ensures participants == ReplaceById(old(participants), res)
      ensures winners == old(winners)
    {
      participants := ReplaceById(participants, res);
    }

    /** `handleDeleteParticipant`: when confirmed, the participant and all
        its prize records go; otherwise nothing changes. */
    method DeleteParticipant(id: string, confirmed: bool)
      modifies this
      ensures confirmed ==> participants == WithoutParticipant(old(participants), id) &&
                            winners == WithoutWinnersOf(old(winners), id)
      ensures !confirmed ==> participants == old(participants) && winners == old(winners)
    {
      if confirmed {
        participants := WithoutParticipant(participants, id);
        winners := WithoutWinnersOf(winners, id);
      }
    }

    /** `handleAddWinner`: the record the store returns is appended. */
    method AddWinner(stored: Winner)
      modifies this
      ensures winners == old(winners) + [stored]
      ensures participants == old(participants)
    {
      winners := winners + [stored];
    }

    /** `handleDeleteWinner`: when confirmed, the records with that id go;
        participants never change. */
    method DeleteWinner(id: string, confirmed: bool)
      modifies this
      ensures confirmed ==> winners == WithoutWinner(old(winners), id)
      ensures !confirmed ==> winners == old(winners)
      ensures participants == old(participants)
    {
      if confirmed {
        winners := WithoutWinner(winners, id);
      }
    }
  }
}
