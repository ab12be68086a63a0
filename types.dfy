/** The records and the state enumeration the quiz game is built on. */
module Types {

  /** A value or null. */
  datatype Option<+T> = None | Some(value: T)

  /** The three observations shown for a patient. */
  datatype Appearance = Appearance(face: string, tongue: string, pulse: string)

  /** One clinical case: the patient, the observations, the complaint, the right
      diagnosis, the distractors and the explanation shown after answering. */
  datatype TcmCase = TcmCase(
    patientName: string,
    appearance: Appearance,
    complaint: string,
    correctDiagnosis: string,
    wrongOptions: seq<string>,
    explanation: string)

  /** The five screens of the game; exactly one is active at a time. */
  datatype GameState = Menu | Loading | Playing | Feedback | GameOver

  /** Score, remaining lives and the current run of correct answers. */
  datatype GameStats = GameStats(score: int, lives: int, streak: int)

  /** No element occurs twice. */
  predicate Distinct<T(==)>(s: seq<T>)
  {
    forall i, j :: 0 <= i < j < |s| ==> s[i] != s[j]
  }

  /** A case the answer screen can be built from without ambiguity: three
      distractors, pairwise different, none of them the right diagnosis. */
  predicate WellFormedCase(c: TcmCase)
  {
    |c.wrongOptions| == 3 && Distinct(c.wrongOptions) && c.correctDiagnosis !in c.wrongOptions
  }
}
