/**
 * The text rules of the chatbot endpoint (`src/backend/api/chatbot.ts`):
 * the keyword classifier from a parent's message to a pillar, the age and
 * pillar lookup tables, the `formatChallenges` helper (which the handler
 * never calls: it builds its prompt list inline), the NOT IN
 * placeholder list, and the `[challenge:ID]` tag rewriting and extraction
 * applied to the model's reply. The database, the token check and the
 * OpenAI call are not part of this model: their results are inputs.
 */
module ChatbotApi {
  import opened Wrappers
  import opened Text

  // ---------------------------------------------------------------- pillar classifier

  const FearWords: seq<string> := ["afraid", "scared", "fear"]
  const SocialWords: seq<string> := ["friends", "shy", "talking", "group"]
  const GrowthWords: seq<string> := ["try", "quit", "give up", "fail"]
  const DecisionWords: seq<string> := ["decide", "problem", "solve", "choice"]
  const PurposeWords: seq<string> := ["talent", "good at", "purpose", "passion"]

  /** Some word of the list occurs in `msg`: the `||` of `msg.includes(...)` tests. */
  predicate MentionsAny(msg: string, words: seq<string>)
  {
    exists i :: 0 <= i < |words| && Contains(msg, words[i])
  }

  /** `detectPillarId`: the first keyword group found in the lower-cased message decides. */
  function DetectPillarId(message: string): (r: int)
    ensures 1 <= r <= 5
  {
    var msg := Lower(message);
    if MentionsAny(msg, FearWords) then 5
    else if MentionsAny(msg, SocialWords) then 3
    else if MentionsAny(msg, GrowthWords) then 2
    else if MentionsAny(msg, DecisionWords) then 1
    else if MentionsAny(msg, PurposeWords) then 4
    else 2
  }

  /** Matching ignores case: a message and its lower-cased form get the same pillar. */
  lemma DetectIgnoresCase(m: string)
    ensures DetectPillarId(Lower(m)) == DetectPillarId(m)
  {
    LowerIdempotent(m);
  }

  /** A text found in the message is found, lower-cased, in the lower-cased message. */
  lemma LowerContains(m: string, w: string)
    requires Contains(m, w)
    ensures Contains(Lower(m), Lower(w))
  {
    var k := ContainsWitness(m, w);
    var before, after := m[..k], m[k + |w|..];
    assert m == before + w + after;
    LowerAppend(before + w, after);
    LowerAppend(before, w);
    var lm := Lower(m);
    assert lm == Lower(before) + Lower(w) + Lower(after);
    assert lm[|Lower(before)|..|Lower(before)| + |Lower(w)|] == Lower(w);
    ContainsAt(lm, Lower(w), |Lower(before)|);
  }

  /**
   * Priority: a fear keyword, written in any case, gives pillar 5 whatever
   * else the message contains.
   */
  lemma FearWins(m: string, w: string)
    requires Lower(w) in FearWords && Contains(m, w)
    ensures DetectPillarId(m) == 5
  {
    LowerContains(m, w);
  }

  /** Without a fear keyword, a social keyword in any case gives pillar 3. */
  lemma SocialBeforeTheRest(m: string, w: string)
    requires !MentionsAny(Lower(m), FearWords)
    requires Lower(w) in SocialWords && Contains(m, w)
    ensures DetectPillarId(m) == 3
  {
    LowerContains(m, w);
  }

  /** A message with none of the keywords maps to pillar 2. */
  lemma NoKeywordIsGrowth(m: string)
    requires forall words :: words in [FearWords, SocialWords, GrowthWords, DecisionWords, PurposeWords]
               ==> !MentionsAny(Lower(m), words)
    ensures DetectPillarId(m) == 2
  {
    assert !MentionsAny(Lower(m), FearWords);
    assert !MentionsAny(Lower(m), SocialWords);
    assert !MentionsAny(Lower(m), DecisionWords);
    assert !MentionsAny(Lower(m), PurposeWords);
  }

  // ---------------------------------------------------------------- lookup tables

  /** `getAgeRange`: three bands, and "6-9" for every other age. */
  function GetAgeRange(age: int): (r: string)
    ensures r == "3-5" <==> 3 <= age <= 5
    ensures r == "10-13" <==> 10 <= age <= 13
    ensures r == "6-9" <==> !(3 <= age <= 5) && !(10 <= age <= 13)
  {
    if 3 <= age <= 5 then "3-5"
    else if 6 <= age <= 9 then "6-9"
    else if 10 <= age <= 13 then "10-13"
    else "6-9"
  }

  const DefaultPillarName := "Growth Mindset & Resilience"

  const PillarNames: map<int, string> := map[
    1 := "Independence & Problem-Solving",
    2 := "Growth Mindset & Resilience",
    3 := "Social Confidence & Communication",
    4 := "Purpose & Strength Discovery",
    5 := "Managing Fear & Anxiety"]

  /** `getPillarName`: the table entry, or the pillar-2 name for an id outside 1..5. */
  function PillarName(id: int): (r: string)
    ensures 1 <= id <= 5 ==> r == PillarNames[id]
    ensures r == DefaultPillarName <==> (id == 2 || !(1 <= id <= 5))
  {
    if id in PillarNames then PillarNames[id] else DefaultPillarName
  }

  /** The classifier always lands on a table entry, never on the fallback for an unknown id. */
  lemma DetectedPillarIsNamed(m: string)
    ensures DetectPillarId(m) in PillarNames
    ensures PillarName(DetectPillarId(m)) == PillarNames[DetectPillarId(m)]
  {
  }

  // ---------------------------------------------------------------- prompt text

  datatype ChallengeText = ChallengeText(title: string, description: string, tip: string)

  /**
   * One line of `formatChallenges`. The handler does not use this helper:
   * its prompt list, built inline, prefixes each line with the challenge id.
   */
  function Bullet(c: ChallengeText): string
  {
    "• " + c.title + ": " + c.description + " Tip: " + c.tip
  }

  function Bullets(cs: seq<ChallengeText>): (r: seq<string>)
    ensures |r| == |cs|
  {
    seq(|cs|, i requires 0 <= i < |cs| => Bullet(cs[i]))
  }

  /** `formatChallenges`: the bullet lines joined by newlines. */
  function FormatChallenges(cs: seq<ChallengeText>): (r: string)
    ensures cs == [] <==> r == []
    ensures cs != [] ==> Bullet(cs[0]) <= r
  {
    Join(Bullets(cs), "\n")
  }

  /**
   * With newline-free fields, the text splits back into exactly one line per
   * challenge, in input order.
   */
  lemma FormatOneLinePerChallenge(cs: seq<ChallengeText>)
    requires |cs| >= 1
    requires forall i :: 0 <= i < |cs| ==> '\n' !in cs[i].title + cs[i].description + cs[i].tip
    ensures Split(FormatChallenges(cs), '\n') == Bullets(cs)
  {
    var b := Bullets(cs);
    forall i | 0 <= i < |b| ensures '\n' !in b[i] {
      var c := cs[i];
      assert '\n' !in c.title && '\n' !in c.description && '\n' !in c.tip;
    }
    SplitJoin(b, '\n');
  }

  // ---------------------------------------------------------------- NOT IN list

  /** `ids.map(() => '?').join(',')`. */
  function Placeholders(n: nat): string
  {
    Join(seq(n, _ => "?"), ",")
  }

  lemma {:induction false} PlaceholdersShape(n: nat)
    ensures Count(Placeholders(n), '?') == n
    ensures n >= 1 ==> |Placeholders(n)| == 2 * n - 1
  {
    if n >= 2 {
      PlaceholdersShape(n - 1);
      assert seq(n, _ => "?")[1..] == seq(n - 1, _ => "?");
      CountAppend("?,", Placeholders(n - 1), '?');
      assert Placeholders(n) == "?," + Placeholders(n - 1);
    } else if n == 1 {
      assert Placeholders(1) == "?";
    }
  }

  datatype Param = IntParam(i: int) | TextParam(s: string)

  /** `.bind(pillarId, ageRange, ...completedChallengeIds)`. */
  function Bindings(pillarId: int, ageRange: string, completed: seq<string>): seq<Param>
  {
    [IntParam(pillarId), TextParam(ageRange)] + seq(|completed|, i requires 0 <= i < |completed| => TextParam(completed[i]))
  }

  /**
   * The query binds the pillar and the age range for its two fixed `?`, then
   * one completed challenge id, in order, for each `?` of the NOT IN list.
   */
  lemma OnePlaceholderPerBinding(pillarId: int, ageRange: string, completed: seq<string>)
    ensures |Bindings(pillarId, ageRange, completed)| == 2 + Count(Placeholders(|completed|), '?')
    ensures Bindings(pillarId, ageRange, completed)[..2] == [IntParam(pillarId), TextParam(ageRange)]
    ensures forall i :: 0 <= i < |completed| ==> Bindings(pillarId, ageRange, completed)[2 + i] == TextParam(completed[i])
  {
    PlaceholdersShape(|completed|);
  }

  // ---------------------------------------------------------------- [challenge:ID] tags

  const TagOpen := "[challenge:"
  const LinkBase := "https://kidoova.com/challenges/"

  /** Position of the first `c` in `s`. */
  function IndexOf(s: string, c: char): (r: Option<nat>)
    ensures r.Some? ==> r.value < |s| && s[r.value] == c && c !in s[..r.value]
    ensures r.None? ==> c !in s
  {
    if s == [] then None
    else if s[0] == c then Some(0)
    else match IndexOf(s[1..], c)
      case None => None
      case Some(k) =>
        assert s[..k + 1] == [s[0]] + s[1..][..k];
        Some(k + 1)
  }

  /** The ID of a match of `/\[challenge:([^\]]+)\]/` starting at the front of `s`, if there is one. */
  function TagAt(s: string): (r: Option<string>)
    ensures r.Some? ==> r.value != [] && ']' !in r.value && 12 + |r.value| <= |s|
                        && s[..12 + |r.value|] == TagOpen + r.value + "]"
  {
    if !StartsWith(s, TagOpen) then None
    else
      match IndexOf(s[11..], ']')
      case None => None
      case Some(k) =>
        if k == 0 then None
        else
          assert s[..12 + k] == s[..11] + s[11..][..k] + "]";
          Some(s[11..][..k])
  }

  /** The rewriting with the link prefix `base`: each tag becomes `base` followed by its ID. */
  function ReplaceTagsWith(s: string, base: string): string
    decreases |s|
  {
    if s == [] then []
    else
      match TagAt(s)
      case Some(id) => base + id + ReplaceTagsWith(s[12 + |id|..], base)
      case None => [s[0]] + ReplaceTagsWith(s[1..], base)
  }

  /** `reply.replace(/\[challenge:([^\]]+)\]/g, (m, id) => LinkBase + id)`. */
  function ReplaceTags(s: string): (r: string)
    ensures ExtractTags(s) == [] ==> r == s
  {
    if ExtractTags(s) == [] then NoTagsUnchanged(s, LinkBase); ReplaceTagsWith(s, LinkBase)
    else ReplaceTagsWith(s, LinkBase)
  }

  /** The IDs of `reply.matchAll(/\[challenge:([^\]]+)\]/g)`, in order of appearance. */
  function ExtractTags(s: string): (r: seq<string>)
    ensures forall i :: 0 <= i < |r| ==> r[i] != [] && ']' !in r[i]
    decreases |s|
  {
    if s == [] then []
    else
      match TagAt(s)
      case Some(id) => [id] + ExtractTags(s[12 + |id|..])
      case None => ExtractTags(s[1..])
  }

  /** What the endpoint answers for the model's reply: the rewritten text and the IDs of the original. */
  function ApiResponse(reply: string): (r: (string, seq<string>))
    ensures r.1 == [] ==> r.0 == reply
    ensures forall i :: 0 <= i < |r.1| ==> r.1[i] != [] && ']' !in r.1[i]
  {
    (ReplaceTags(reply), ExtractTags(reply))
  }

  /** A text from which no tag is extracted holds none to rewrite: the rewriting leaves it as it is. */
  lemma {:induction false} NoTagsUnchanged(s: string, base: string)
    requires ExtractTags(s) == []
    ensures ReplaceTagsWith(s, base) == s
    decreases |s|
  {
    if s != [] {
      assert TagAt(s).None?;
      NoTagsUnchanged(s[1..], base);
      assert [s[0]] + s[1..] == s;
    }
  }

  /** Text without `[` holds no tag: it is neither rewritten nor yields IDs. */
  lemma {:induction false} NoTagUnchanged(s: string)
    requires '[' !in s
    ensures ReplaceTags(s) == s && ExtractTags(s) == []
    decreases |s|
  {
    if s != [] {
      assert s[0] != '[';
      assert TagAt(s).None?;
      assert s[1..] == s[1..];
      NoTagUnchanged(s[1..]);
    }
  }

  lemma TagAtTag(id: string, after: string)
    requires id != [] && ']' !in id
    ensures TagAt(TagOpen + id + "]" + after) == Some(id)
  {
    var s := TagOpen + id + "]" + after;
    var rest := s[11..];
    assert rest == id + "]" + after;
    assert s[..11] == TagOpen;
    var k := IndexOf(rest, ']');
    assert rest[|id|] == ']';
    assert k.value == |id|;
    assert rest[..|id|] == id;
  }

  /** One step over a character that cannot open a tag. */
  lemma PlainStep(s: string)
    requires s != [] && s[0] != '['
    ensures forall base :: ReplaceTagsWith(s, base) == [s[0]] + ReplaceTagsWith(s[1..], base)
    ensures ExtractTags(s) == ExtractTags(s[1..])
  {
    assert TagAt(s).None?;
  }

  /** One step over a tag. */
  lemma TagStep(id: string, after: string)
    requires id != [] && ']' !in id
    ensures forall base :: ReplaceTagsWith(TagOpen + id + "]" + after, base) == base + id + ReplaceTagsWith(after, base)
    ensures ExtractTags(TagOpen + id + "]" + after) == [id] + ExtractTags(after)
  {
    var s := TagOpen + id + "]" + after;
    TagAtTag(id, after);
    assert s[12 + |id|..] == after;
  }

  lemma {:induction false} TagAfterPlainText(before: string, id: string, after: string, base: string)
    requires '[' !in before && id != [] && ']' !in id
    ensures ReplaceTagsWith(before + (TagOpen + id + "]" + after), base) == before + (base + id + ReplaceTagsWith(after, base))
    decreases |before|
  {
    var t := TagOpen + id + "]" + after;
    if before == [] {
      assert before + t == t;
      TagStep(id, after);
    } else {
      var s := before + t;
      assert s[0] == before[0];
      PlainStep(s);
      assert s[1..] == before[1..] + t;
      TagAfterPlainText(before[1..], id, after, base);
      var tail := base + id + ReplaceTagsWith(after, base);
      assert ReplaceTagsWith(s, base) == [before[0]] + (before[1..] + tail);
      assert [before[0]] + (before[1..] + tail) == ([before[0]] + before[1..]) + tail;
      assert [before[0]] + before[1..] == before;
    }
  }

  /** A tag after plain text is replaced by the link to its challenge. */
  lemma TagInPlainTextReplaced(before: string, id: string, after: string)
    requires '[' !in before && id != [] && ']' !in id
    ensures ReplaceTags(before + (TagOpen + id + "]" + after)) == before + (LinkBase + id + ReplaceTags(after))
  {
    TagAfterPlainText(before, id, after, LinkBase);
  }

  /** A tag after plain text has its ID reported: the two regular expressions find the same tags. */
  lemma {:induction false} TagInPlainTextExtracted(before: string, id: string, after: string)
    requires '[' !in before && id != [] && ']' !in id
    ensures ExtractTags(before + (TagOpen + id + "]" + after)) == [id] + ExtractTags(after)
    decreases |before|
  {
    var t := TagOpen + id + "]" + after;
    if before == [] {
      assert before + t == t;
      TagStep(id, after);
    } else {
      var s := before + t;
      assert s[0] == before[0];
      PlainStep(s);
      assert s[1..] == before[1..] + t;
      TagInPlainTextExtracted(before[1..], id, after);
    }
  }
}
