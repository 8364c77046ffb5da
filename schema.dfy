/** Column vocabulary of the `Candidates` table, as declared by the SQLAlchemy
    model in src/model.py. The model has no behaviour; only its column names
    are used, as the target vocabulary of the column renaming. */
module Schema {

  const ID: string := "ID"
  const FIRST_NAME: string := "First_Name"
  const LAST_NAME: string := "Last_Name"
  const EMAIL: string := "Email"
  const APPLICATION_DATE: string := "Application_Date"
  const COUNTRY: string := "Country"
  const YOE: string := "YOE"
  const SENIORITY: string := "Seniority"
  const TECHNOLOGY: string := "Technology"
  const CODE_CHALLENGE_SCORE: string := "Code_Challenge_Score"
  const TECHNICAL_INTERVIEW_SCORE: string := "Technical_Interview_Score"

  /** The data columns of `Candidates`, in declaration order (every column but the key). */
  const DataColumns: seq<string> :=
    [FIRST_NAME, LAST_NAME, EMAIL, APPLICATION_DATE, COUNTRY, YOE,
     SENIORITY, TECHNOLOGY, CODE_CHALLENGE_SCORE, TECHNICAL_INTERVIEW_SCORE]

  /** All columns of `Candidates`: the integer key `ID` followed by the data columns. */
  const CandidateColumns: seq<string> := [ID] + DataColumns
}
