/** The two prompt builders: the retrieval query taken from the
    conversation (`buildQueryTextFromMessages`, api/generate.js:244-256) and
    the system prompt (`buildVoiceSystemPrompt`, api/generate.js:222-242). */
module Prompt {
  import opened Wrappers
  import opened Text

  /** A JavaScript value where the code expects a string. */
  datatype Value = Str(s: string) | NotString

  /** `safeString`: the value if it is a string, else "". */
  function SafeString(v: Value): string {
    match v
    case Str(s) => s
    case NotString => ""
  }

  /** An element of the `messages` array: an object with its `role` and
      `content`, or any other value (null, a number, a string), which has
      no role. */
  datatype Item = Object(role: Value, content: Value) | Other

  predicate IsUserMessage(m: Item) {
    m.Object? && m.role == Str("user")
  }

  /** The non-empty contents of the user messages, in order
      (api/generate.js:245-248). */
  function UserTexts(items: seq<Item>): seq<string>
    decreases |items|
  {
    if items == [] then []
    else
      var m := items[0];
      (if IsUserMessage(m) && SafeString(m.content) != "" then [SafeString(m.content)] else [])
      + UserTexts(items[1..])
  }

  const MaxQueryChars := 4000

  /** `filter(Boolean)` on strings. */
  function NonEmpty(xs: seq<string>): seq<string>
    decreases |xs|
  {
    if xs == [] then [] else (if xs[0] != "" then [xs[0]] else []) + NonEmpty(xs[1..])
  }

  /** `slice(0, MaxQueryChars)`. */
  function Truncate(s: string): string {
    if |s| <= MaxQueryChars then s else s[..MaxQueryChars]
  }

  /** `buildQueryTextFromMessages`; `None` stands for a `messages` value
      that is not an array. */
  function BuildQueryText(messages: Option<seq<Item>>): string {
    var texts := if messages.Some? then UserTexts(messages.value) else [];
    var last := if |texts| > 0 then texts[|texts| - 1] else "";
    var first := if |texts| > 0 then texts[0] else "";
    Truncate(Join(NonEmpty([first, last]), "\n\n"))
  }

  lemma {:induction false} UserTextsConcat(a: seq<Item>, b: seq<Item>)
    ensures UserTexts(a + b) == UserTexts(a) + UserTexts(b)
    decreases |a|
  {
    if a == [] {
      assert a + b == b;
    } else {
      var m := a[0];
      var head := if IsUserMessage(m) && SafeString(m.content) != "" then [SafeString(m.content)] else [];
      assert (a + b)[0] == m;
      assert (a + b)[1..] == a[1..] + b;
      assert UserTexts(a + b) == head + UserTexts(a[1..] + b);
      UserTextsConcat(a[1..], b);
      assert UserTexts(a) == head + UserTexts(a[1..]);
    }
  }

  lemma {:induction false} UserTextsNonEmpty(items: seq<Item>)
    ensures forall i :: 0 <= i < |UserTexts(items)| ==> UserTexts(items)[i] != ""
    decreases |items|
  {
    if items != [] {
      UserTextsNonEmpty(items[1..]);
    }
  }

  /** Every user text is non-empty and is the content of a user message. */
  lemma {:induction false} UserTextsSpec(items: seq<Item>)
    ensures forall i :: 0 <= i < |UserTexts(items)| ==>
      UserTexts(items)[i] != "" && exists m :: m in items && IsUserMessage(m) && m.content == Str(UserTexts(items)[i])
    decreases |items|
  {
    if items != [] {
      UserTextsSpec(items[1..]);
      var texts := UserTexts(items);
      forall i | 0 <= i < |texts|
        ensures texts[i] != "" && exists m :: m in items && IsUserMessage(m) && m.content == Str(texts[i])
      {
        var m := items[0];
        if IsUserMessage(m) && SafeString(m.content) != "" {
          if i == 0 {
            assert m in items && m.content == Str(texts[i]);
          } else {
            assert texts[i] == UserTexts(items[1..])[i - 1];
            var m' :| m' in items[1..] && IsUserMessage(m') && m'.content == Str(texts[i]);
          }
        } else {
          assert texts[i] == UserTexts(items[1..])[i];
          var m' :| m' in items[1..] && IsUserMessage(m') && m'.content == Str(texts[i]);
        }
      }
    }
  }

  /** The query is at most 4000 characters: the first user text, a blank
      line and the latest user text, cut to that length; "" when there is
      no user text. With a single user text, that text is used twice. */
  lemma QueryTextSpec(messages: Option<seq<Item>>)
    ensures |BuildQueryText(messages)| <= MaxQueryChars
    ensures var texts := if messages.Some? then UserTexts(messages.value) else [];
      && (texts == [] ==> BuildQueryText(messages) == "")
      && (texts != [] ==> BuildQueryText(messages) == Truncate(texts[0] + "\n\n" + texts[|texts| - 1]))
  {
    var texts := if messages.Some? then UserTexts(messages.value) else [];
    if messages.Some? {
      UserTextsNonEmpty(messages.value);
    }
    if texts != [] {
      var first, last := texts[0], texts[|texts| - 1];
      assert first != "" && last != "";
      assert [first, last][1..] == [last];
      assert NonEmpty([last]) == [last] by {
        assert [last][1..] == [];
      }
      assert NonEmpty([first, last]) == [first, last];
      assert Join([first, last], "\n\n") == first + "\n\n" + last by {
        assert [first, last][1..] == [last];
      }
    } else {
      assert NonEmpty(["", ""]) == [];
    }
  }

  /** A message that is not a user message never changes the query. */
  lemma QueryIgnoresNonUser(a: seq<Item>, m: Item, b: seq<Item>)
    requires !IsUserMessage(m)
    ensures BuildQueryText(Some(a + [m] + b)) == BuildQueryText(Some(a + b))
  {
    UserTextsConcat(a + [m], b);
    UserTextsConcat(a, [m]);
    UserTextsConcat(a, b);
    assert UserTexts([m]) == [];
    assert UserTexts(a) + [] == UserTexts(a);
  }

  /** Only the first and the latest user texts matter: what comes between
      two user texts never changes the query. */
  lemma QueryIgnoresMiddle(a: seq<Item>, m: Item, b: seq<Item>)
    requires UserTexts(a) != [] && UserTexts(b) != []
    ensures BuildQueryText(Some(a + [m] + b)) == BuildQueryText(Some(a + b))
  {
    UserTextsConcat(a + [m], b);
    UserTextsConcat(a, [m]);
    UserTextsConcat(a, b);
    var t1 := UserTexts(a + [m] + b);
    var t2 := UserTexts(a + b);
    assert t1[0] == UserTexts(a)[0] == t2[0];
    assert t1[|t1| - 1] == UserTexts(b)[|UserTexts(b)| - 1] == t2[|t2| - 1];
    QueryTextSpec(Some(a + [m] + b));
    QueryTextSpec(Some(a + b));
  }

  // ---------------------------------------------------------------------
  // System prompt

  /** The three sentences of the introduction, joined with a space. */
  const Intro: string := Join([
    "You are a marketing email assistant for Syracuse University Alumni & Constituent Engagement.",
    "Use the provided voice guide and example excerpts to match institutional voice and phrasing.",
    "CRITICAL: Always follow the user\U{E2}\U{20AC}\U{2122}s output-format instructions (e.g., JSON-only). Do not add commentary."
  ], " ")

  const GuideHeader: string := "VOICE GUIDE:\n"
  const ExamplesHeader: string := "VOICE EXAMPLES (reference only; do not copy verbatim):\n\n"
  const ExampleSeparator: string := "\n\n---\n\n"
  const PartSeparator: string := "\n\n"

  /** The parts of the prompt: the introduction, the voice guide when it is
      not empty, the examples when there are any. */
  function PromptParts(intro: string, voiceGuide: string, excerpts: seq<string>): seq<string> {
    [intro]
    + (if voiceGuide != "" then [GuideHeader + voiceGuide] else [])
    + (if excerpts != [] then [ExamplesHeader + Join(excerpts, ExampleSeparator)] else [])
  }

  /** `buildVoiceSystemPrompt`. */
  function BuildVoiceSystemPrompt(voiceGuide: string, excerpts: seq<string>): string {
    Join(PromptParts(Intro, voiceGuide, excerpts), PartSeparator)
  }

  function GuideSection(voiceGuide: string): string {
    if voiceGuide != "" then PartSeparator + GuideHeader + voiceGuide else ""
  }

  function ExamplesSection(excerpts: seq<string>): string {
    if excerpts != [] then PartSeparator + ExamplesHeader + Join(excerpts, ExampleSeparator) else ""
  }

  /** The prompt is the introduction, then the voice guide section, then the
      examples section, each present only when it has content and each
      after a blank line. */
  lemma SystemPromptLayout(voiceGuide: string, excerpts: seq<string>)
    ensures BuildVoiceSystemPrompt(voiceGuide, excerpts)
      == Intro + GuideSection(voiceGuide) + ExamplesSection(excerpts)
  {
    PartsLayout(Intro, voiceGuide, excerpts);
  }

  lemma PartsLayout(intro: string, voiceGuide: string, excerpts: seq<string>)
    ensures Join(PromptParts(intro, voiceGuide, excerpts), PartSeparator)
      == intro + GuideSection(voiceGuide) + ExamplesSection(excerpts)
  {
    var parts := PromptParts(intro, voiceGuide, excerpts);
    var guide := GuideHeader + voiceGuide;
    var examples := ExamplesHeader + Join(excerpts, ExampleSeparator);
    if voiceGuide != "" && excerpts != [] {
      assert parts == [intro, guide, examples];
      JoinThree(intro, guide, examples, PartSeparator);
    } else if voiceGuide != "" {
      assert parts == [intro, guide];
      JoinTwo(intro, guide, PartSeparator);
    } else if excerpts != [] {
      assert parts == [intro, examples];
      JoinTwo(intro, examples, PartSeparator);
    } else {
      assert parts == [intro];
    }
  }

  lemma JoinTwo(a: string, b: string, sep: string)
    ensures Join([a, b], sep) == a + sep + b
  {
    assert [a, b][1..] == [b];
  }

  lemma JoinThree(a: string, b: string, c: string, sep: string)
    ensures Join([a, b, c], sep) == a + sep + b + sep + c
  {
    assert [a, b, c][1..] == [b, c];
    JoinTwo(b, c, sep);
  }

  /** The length of the prompt: the introduction, plus 2 and the header and
      the guide when there is a guide, plus 2 and the header and every
      excerpt with 7 characters between consecutive ones when there are
      excerpts. */
  lemma SystemPromptLength(voiceGuide: string, excerpts: seq<string>)
    ensures |BuildVoiceSystemPrompt(voiceGuide, excerpts)| ==
      |Intro|
      + (if voiceGuide != "" then 2 + |GuideHeader| + |voiceGuide| else 0)
      + (if excerpts != [] then 2 + |ExamplesHeader| + TotalLength(excerpts) + 7 * (|excerpts| - 1) else 0)
  {
    SystemPromptLayout(voiceGuide, excerpts);
    if excerpts != [] {
      JoinLength(excerpts, ExampleSeparator);
    }
  }
}
