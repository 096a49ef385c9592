/** The records the frontend exchanges with its store. */
module Types {
  import opened Wrappers

  /** A registrant; `id` is assigned by the store. */
  datatype Participant = Participant(id: string, tokenNo: string, name: string, phone: string, year: string)

  /** A participant without its `id`: the form's contents and the body of an
      add request. */
  datatype ParticipantFields = ParticipantFields(tokenNo: string, name: string, phone: string, year: string)

  /** A recorded prize. `participant` is a snapshot taken at assignment time.
      The declared record has no `prize`; the winners view nevertheless reads
      one, so it is kept here as a field that may be absent (`None` for every
      record this frontend creates). */
  datatype Winner = Winner(id: string, participant: Participant, rank: string, year: string,
                           assignedAt: string, prize: Option<string>)

  /** A winner before the store has given it an `id`. */
  datatype WinnerDraft = WinnerDraft(participant: Participant, rank: string, year: string, assignedAt: string)

  /** The five prize categories. */
  datatype PrizeRank = FirstPrize | SecondPrize | ThirdPrize | ConsolationPrize | SpecialPrize

  /** The label under which a rank is stored and shown. */
  function RankName(r: PrizeRank): string
  {
    match r
    case FirstPrize => "1st Prize"
    case SecondPrize => "2nd Prize"
    case ThirdPrize => "3rd Prize"
    case ConsolationPrize => "Consolation Prize"
    case SpecialPrize => "Special Prize"
  }

  /** The labels of the ranks of which a year may have only one winner. */
  const LimitedRankNames: seq<string> := ["1st Prize", "2nd Prize", "3rd Prize"]

  /** The form fields of a participant. */
  function FieldsOf(p: Participant): ParticipantFields
  {
    ParticipantFields(p.tokenNo, p.name, p.phone, p.year)
  }
}
