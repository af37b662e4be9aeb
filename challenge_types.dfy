/**
 * The challenge record the front-end list components receive
 * (`src/frontend/src/types/index.ts`).
 */
module ChallengeTypes {

  /** `steps: string | string[]`. */
  datatype Steps = StepsText(text: string) | StepsList(items: seq<string>)

  datatype Challenge = Challenge(
    id: string,
    title: string,
    description: string,
    goal: string,
    steps: Steps,
    example_dialogue: string,
    tip: string,
    pillar_id: int,
    age_range: string,
    difficulty_level: int,
    is_completed: bool)

  /** The title, as the key the list components group and deduplicate by. */
  function TitleOf(): Challenge -> string
  {
    (c: Challenge) => c.title
  }
}
