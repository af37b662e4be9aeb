/**
 * The older Express chatbot route (`src/backend/routes/chatbot.ts`). Its
 * keyword classifier is written here as a first-match table over the same
 * keyword groups, and shown to agree with the endpoint's `if` chain on every
 * message; its pillar-name table and challenge list are the endpoint's
 * (`ChatbotApi.PillarName`, `ChatbotApi.FormatChallenges`), which the route
 * repeats word for word.
 */
module ChatbotRoutes {
  import opened Wrappers
  import opened Text
  import ChatbotApi

  /** The keyword groups with their pillars, in the order they are tried. */
  const Rules: seq<(seq<string>, int)> := [
    (ChatbotApi.FearWords, 5), (ChatbotApi.SocialWords, 3), (ChatbotApi.GrowthWords, 2),
    (ChatbotApi.DecisionWords, 1), (ChatbotApi.PurposeWords, 4)]

  /** The pillar of the first group with a word in `msg`; 2 when none has. */
  function FirstMatch(msg: string, rules: seq<(seq<string>, int)>): (r: int)
    ensures r == 2 || exists i :: 0 <= i < |rules| && rules[i].1 == r
  {
    if rules == [] then 2
    else if ChatbotApi.MentionsAny(msg, rules[0].0) then rules[0].1
    else FirstMatch(msg, rules[1..])
  }

  /** The route's `detectPillarId`. */
  function DetectPillarId(message: string): (r: int)
    ensures 1 <= r <= 5
  {
    FirstMatch(Lower(message), Rules)
  }

  /** The route and the endpoint classify every message alike: same groups, same order, same default. */
  lemma AgreesWithEndpoint(m: string)
    ensures DetectPillarId(m) == ChatbotApi.DetectPillarId(m)
  {
    var msg := Lower(m);
    var r1 := [(ChatbotApi.SocialWords, 3), (ChatbotApi.GrowthWords, 2),
               (ChatbotApi.DecisionWords, 1), (ChatbotApi.PurposeWords, 4)];
    var r2 := [(ChatbotApi.GrowthWords, 2), (ChatbotApi.DecisionWords, 1), (ChatbotApi.PurposeWords, 4)];
    var r3 := [(ChatbotApi.DecisionWords, 1), (ChatbotApi.PurposeWords, 4)];
    var r4 := [(ChatbotApi.PurposeWords, 4)];
    assert Rules[1..] == r1 && r1[1..] == r2 && r2[1..] == r3 && r3[1..] == r4 && r4[1..] == [];
    assert FirstMatch(msg, r4) == (if ChatbotApi.MentionsAny(msg, ChatbotApi.PurposeWords) then 4 else 2);
    assert FirstMatch(msg, r3) == (if ChatbotApi.MentionsAny(msg, ChatbotApi.DecisionWords) then 1 else FirstMatch(msg, r4));
    assert FirstMatch(msg, r2) == (if ChatbotApi.MentionsAny(msg, ChatbotApi.GrowthWords) then 2 else FirstMatch(msg, r3));
    assert FirstMatch(msg, r1) == (if ChatbotApi.MentionsAny(msg, ChatbotApi.SocialWords) then 3 else FirstMatch(msg, r2));
  }

  datatype Child = Child(name: Option<string>, age_range: Option<string>)

  /** What the route does with a request: reject it, or query and prompt with these values. */
  datatype Outcome =
    | MessageRequired                                            // 400, before any query
    | Prompt(pillarId: int, pillarName: string, ageRange: string, childName: string)

  /** JavaScript truthiness of an optional text. */
  predicate Present(s: Option<string>)
  {
    s.Some? && s.value != []
  }

  /** The route body up to the query: the message check, then the age range with its default. */
  function Handle(message: Option<string>, child: Option<Child>): (r: Outcome)
    ensures r.MessageRequired? <==> !Present(message)
    ensures r.Prompt? ==> 1 <= r.pillarId <= 5 && r.pillarName == ChatbotApi.PillarName(r.pillarId)
  {
    if !Present(message) then MessageRequired
    else
      var ageRange := if child.Some? && Present(child.value.age_range) then child.value.age_range.value else "6-9";
      var name := if child.Some? && Present(child.value.name) then child.value.name.value else "your child";
      var pillar := DetectPillarId(message.value);
      AgreesWithEndpoint(message.value);
      Prompt(pillar, ChatbotApi.PillarName(pillar), ageRange, name)
  }

  /** The age range is the child's own when set, and '6-9' when there is no child or no range. */
  lemma AgeRangeDefault(message: string, child: Option<Child>)
    requires message != []
    ensures var r := Handle(Some(message), child);
      r.Prompt?
      && (child.Some? && Present(child.value.age_range) ==> r.ageRange == child.value.age_range.value)
      && (child.None? || !Present(child.value.age_range) ==> r.ageRange == "6-9")
      && r.pillarId == ChatbotApi.DetectPillarId(message)
  {
    AgreesWithEndpoint(message);
  }
}
