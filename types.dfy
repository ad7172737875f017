/**
 * The records shared by the scoring engine, the importer and the app shell
 * (types.ts): a catalogue question, the macro profile, and the assessment
 * result kept in history.
 */
module Types {

  datatype Option<T> = None | Some(value: T)

  /** A catalogue question: its stable id and its category code ("1a", "24g"). The display texts are not modelled. */
  datatype Question = Question(id: int, code: string)

  /**
   * Answers keyed by question id. The source types them as 1..4; a missing
   * key or the value 0 means "unanswered".
   */
  type Answers = map<int, int>

  /** Sums of the a/b/c answers of categories 1..11. */
  datatype SocialTriad = SocialTriad(active: int, passive: int, concept: int)

  /** Sums of the a/b/c answers of categories 12..19. */
  datatype EmotionalTriad = EmotionalTriad(self: int, we: int, ideal: int)

  datatype MacroScores = MacroScores(social: SocialTriad, emotional: EmotionalTriad)

  /** One respondent's record: opaque id and ISO date, label, answers and the derived sums. */
  datatype AssessmentResult = AssessmentResult(
    id: string,
    date: string,
    name: string,
    answers: Answers,
    scores: map<string, int>,
    macro: MacroScores)

  /** The opaque id and ISO date a new record is stamped with; the clock and the random source supply them. */
  datatype Stamp = Stamp(id: string, date: string)

  /** Every recorded answer is a Likert value 1..4. */
  predicate LikertAnswers(answers: Answers)
  {
    forall id :: id in answers ==> 1 <= answers[id] <= 4
  }
}
