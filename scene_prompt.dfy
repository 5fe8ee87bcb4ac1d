/** The system prompt of the scene generator
    (`build_scene_generator_prompt`): the experience tier, the quest-hook,
    product and early-sign fragments, and the lines that carry them. */
module ScenePrompt {
  import opened Wrappers
  import opened PyStr

  /** One entry of the quest-hook list; a field is `None` when its key is missing. */
  datatype QuestHook = QuestHook(hookType: Option<string>, description: Option<string>)

  /** The values substituted into the prompt, after defaulting. */
  datatype PromptArgs = PromptArgs(
    sceneType: string,
    locationName: string,
    locationRole: string,
    locationSummary: string,
    signatureProducts: seq<string>,
    characterName: string,
    characterLevel: int,
    characterBackground: string,
    characterClass: string,
    timeOfDay: string,
    weather: string,
    isWanted: bool,
    earlySigns: seq<string>,
    questHooks: seq<QuestHook>)

  /** Python's `xs[:n]`. */
  function Take<T>(xs: seq<T>, n: nat): (r: seq<T>)
    ensures |r| == if |xs| < n then |xs| else n
    ensures r == xs[..|r|]
  {
    if |xs| < n then xs else xs[..n]
  }

  // ---------------------------------------------------------------------
  // Experience tier
  // ---------------------------------------------------------------------

  /** The tier named in the prompt: thresholds at 3 and 7, both inclusive. */
  function ExperienceLevel(level: int): (tier: string)
    ensures tier == "inexperienced" <==> level <= 3
    ensures tier == "seasoned" <==> 4 <= level <= 7
    ensures tier == "legendary" <==> 8 <= level
  {
    if level <= 3 then "inexperienced" else if level <= 7 then "seasoned" else "legendary"
  }

  /** The order of the tiers. */
  function TierRank(tier: string): nat {
    if tier == "inexperienced" then 0 else if tier == "seasoned" then 1 else 2
  }

  /** A higher level never gives a lower tier. */
  lemma ExperienceLevelMonotone(a: int, b: int)
    requires a <= b
    ensures TierRank(ExperienceLevel(a)) <= TierRank(ExperienceLevel(b))
  {
  }

  // ---------------------------------------------------------------------
  // Signature products
  // ---------------------------------------------------------------------

  /** The "Known For" fragment: at most three products joined by ", ". */
  function ProductsText(products: seq<string>): (text: string) {
    if products == [] then "various goods" else Join(", ", Take(products, 3))
  }

  /** With no products the fragment is "various goods"; otherwise splitting
      it at ", " gives back the first three products (or all, if fewer) in
      their order, provided none of them contains ", " itself. */
  lemma ProductsTextLists(products: seq<string>)
    ensures products == [] ==> ProductsText(products) == "various goods"
    ensures products != [] && (forall k :: 0 <= k < |products| ==> !Contains(products[k], ", "))
      ==> Split(ProductsText(products), ", ") == Take(products, 3)
  {
    if products != [] && (forall k :: 0 <= k < |products| ==> !Contains(products[k], ", ")) {
      var shown := Take(products, 3);
      assert forall k :: 0 <= k < |shown| ==> shown[k] == products[k];
      SplitJoin(", ", shown);
    }
  }

  // ---------------------------------------------------------------------
  // Quest hooks
  // ---------------------------------------------------------------------

  /** The line rendered for one hook: "- Type: description". */
  function HookLine(hook: QuestHook): (line: string) {
    "- " + Capitalize(hook.hookType.GetOr("conversation")) + ": " + hook.description.GetOr("")
  }

  function HookLines(hooks: seq<QuestHook>): (lines: seq<string>)
    ensures |lines| == |hooks|
    ensures forall k :: 0 <= k < |hooks| ==> lines[k] == HookLine(hooks[k])
  {
    seq(|hooks|, k requires 0 <= k < |hooks| => HookLine(hooks[k]))
  }

  /** The hooks fragment: one line for each of the first two hooks, joined by
      line breaks; empty when there are no hooks. */
  function HooksText(hooks: seq<QuestHook>): (text: string) {
    if hooks == [] then "" else Join("\n", HookLines(Take(hooks, 2)))
  }

  /** Neither rendered field of the hook holds a line break. */
  predicate HookIsOneLine(hook: QuestHook) {
    '\n' !in hook.hookType.GetOr("conversation") && '\n' !in hook.description.GetOr("")
  }

  lemma HookLineIsOneLine(hook: QuestHook)
    requires HookIsOneLine(hook)
    ensures !Contains(HookLine(hook), "\n")
  {
    CapitalizeKeepsNewlines(hook.hookType.GetOr("conversation"));
    ContainsChar(HookLine(hook), '\n');
  }

  /** The hooks fragment is empty without hooks; otherwise it has one line
      per shown hook, at most two, each "- " + the capitalized type (default
      "conversation") + ": " + the description (default empty), in order. */
  lemma HooksTextLines(hooks: seq<QuestHook>)
    ensures hooks == [] ==> HooksText(hooks) == ""
    ensures hooks != [] && (forall k :: 0 <= k < |hooks| && k < 2 ==> HookIsOneLine(hooks[k])) ==>
      var lines := Split(HooksText(hooks), "\n");
      && |lines| == (if |hooks| < 2 then |hooks| else 2)
      && forall k :: 0 <= k < |lines| ==>
           lines[k] == "- " + Capitalize(hooks[k].hookType.GetOr("conversation")) + ": " + hooks[k].description.GetOr("")
  {
    if hooks != [] && (forall k :: 0 <= k < |hooks| && k < 2 ==> HookIsOneLine(hooks[k])) {
      var lines := HookLines(Take(hooks, 2));
      forall k | 0 <= k < |lines|
        ensures !Contains(lines[k], "\n")
      {
        HookLineIsOneLine(hooks[k]);
      }
      SplitJoin("\n", lines);
    }
  }

  // ---------------------------------------------------------------------
  // Early signs of the global threat
  // ---------------------------------------------------------------------

  function SignLines(signs: seq<string>): (lines: seq<string>)
    ensures |lines| == |signs|
    ensures forall k :: 0 <= k < |signs| ==> lines[k] == "- " + signs[k]
  {
    seq(|signs|, k requires 0 <= k < |signs| => "- " + signs[k])
  }

  /** The threat fragment: "- sign" for each of the first two signs, joined
      by line breaks; empty when there are none. */
  function EarlySignsText(signs: seq<string>): (text: string) {
    if signs == [] then "" else Join("\n", SignLines(Take(signs, 2)))
  }

  /** The threat fragment is empty without signs; otherwise it has one line
      "- sign" per shown sign, at most two, in order. */
  lemma EarlySignsTextLines(signs: seq<string>)
    ensures signs == [] ==> EarlySignsText(signs) == ""
    ensures signs != [] && (forall k :: 0 <= k < |signs| && k < 2 ==> '\n' !in signs[k]) ==>
      var lines := Split(EarlySignsText(signs), "\n");
      && |lines| == (if |signs| < 2 then |signs| else 2)
      && forall k :: 0 <= k < |lines| ==> lines[k] == "- " + signs[k]
  {
    if signs != [] && (forall k :: 0 <= k < |signs| && k < 2 ==> '\n' !in signs[k]) {
      var lines := SignLines(Take(signs, 2));
      forall k | 0 <= k < |lines|
        ensures !Contains(lines[k], "\n")
      {
        ContainsChar(lines[k], '\n');
      }
      SplitJoin("\n", lines);
    }
  }

  // ---------------------------------------------------------------------
  // The rendered prompt
  // ---------------------------------------------------------------------

  /** Authored instructions around the substituted lines; their wording is not modelled. */
  const Preamble: string := "<scene-generation instructions>"
  const SceneTypeGuide: string := "<meaning of each scene type>"
  const NarrationRules: string := "<narration, style and output rules>"

  /** Fixed texts of the substituted lines. */
  const HooksHeading: string := "AVAILABLE QUEST HOOKS (weave 1-2 subtly into description):"
  const ThreatHeading: string := "THREAT CONTEXT (include 1 subtle sign):"
  const WantedYes: string := "YES - guards watching"

  /** The texts the prompt derives from the values before substituting them. */
  datatype Derived = Derived(
    levelText: string,
    experienceLevel: string,
    productsText: string,
    hooksText: string,
    signsText: string)

  /** What `build_scene_generator_prompt` derives from its arguments. */
  function DerivedOf(args: PromptArgs): (d: Derived) {
    Derived(IntToString(args.characterLevel), ExperienceLevel(args.characterLevel),
            ProductsText(args.signatureProducts), HooksText(args.questHooks),
            EarlySignsText(args.earlySigns))
  }

  /** The prompt's lines, from the scene type down to the threat context. */
  function PromptLines(args: PromptArgs, d: Derived): (lines: seq<string>) {
    [ Preamble,
      "SCENE TYPE: " + args.sceneType,
      SceneTypeGuide,
      "LOCATION CONTEXT:",
      "- Name: " + args.locationName,
      "- Role: " + args.locationRole,
      "- Base Description: " + args.locationSummary,
      "- Known For: " + d.productsText,
      "- Time: " + args.timeOfDay,
      "- Weather: " + args.weather,
      "",
      "CHARACTER CONTEXT:",
      "- Name: " + args.characterName,
      "- Level: " + d.levelText + " (" + d.experienceLevel + ")",
      "- Background: " + args.characterBackground,
      "- Class: " + args.characterClass,
      "- Wanted/Hostile: " + (if args.isWanted then WantedYes else "No"),
      "",
      if args.questHooks != [] then HooksHeading else "",
      if args.questHooks != [] then d.hooksText else "",
      "",
      if args.earlySigns != [] then ThreatHeading else "",
      if args.earlySigns != [] then d.signsText else "",
      NarrationRules ]
  }

  /** The system prompt for the given values. */
  function RenderPrompt(args: PromptArgs): (prompt: string) {
    Join("\n", PromptLines(args, DerivedOf(args)))
  }

  /** Every line of `PromptLines` occurs verbatim in the rendered prompt. */
  lemma PromptHasLines(args: PromptArgs)
    ensures forall line :: line in PromptLines(args, DerivedOf(args)) ==> Contains(RenderPrompt(args), line)
  {
    var lines := PromptLines(args, DerivedOf(args));
    forall line | line in lines
      ensures Contains(RenderPrompt(args), line)
    {
      var k :| 0 <= k < |lines| && lines[k] == line;
      JoinContainsPiece("\n", lines, k);
    }
  }

  /** The scene type, each location value and the fragments have their
      labelled lines among the prompt's lines (the hooks fragment when there
      are hooks, the threat fragment when there are signs). */
  lemma PromptLinesShowScene(args: PromptArgs, d: Derived)
    ensures var lines := PromptLines(args, d);
      && "SCENE TYPE: " + args.sceneType in lines
      && "- Name: " + args.locationName in lines
      && "- Role: " + args.locationRole in lines
      && "- Base Description: " + args.locationSummary in lines
      && "- Known For: " + d.productsText in lines
      && "- Time: " + args.timeOfDay in lines
      && "- Weather: " + args.weather in lines
      && (args.questHooks != [] ==> d.hooksText in lines)
      && (args.earlySigns != [] ==> d.signsText in lines)
  {
    var lines := PromptLines(args, d);
    assert lines[1] == "SCENE TYPE: " + args.sceneType;
    assert lines[4] == "- Name: " + args.locationName;
    assert lines[5] == "- Role: " + args.locationRole;
    assert lines[6] == "- Base Description: " + args.locationSummary;
    assert lines[7] == "- Known For: " + d.productsText;
    assert lines[8] == "- Time: " + args.timeOfDay;
    assert lines[9] == "- Weather: " + args.weather;
    assert args.questHooks != [] ==> lines[19] == d.hooksText;
    assert args.earlySigns != [] ==> lines[22] == d.signsText;
  }

  /** Each character value, the tier and the hostility answer have their
      labelled lines among the prompt's lines. */
  lemma PromptLinesShowCharacter(args: PromptArgs, d: Derived)
    ensures var lines := PromptLines(args, d);
      && "- Name: " + args.characterName in lines
      && "- Level: " + d.levelText + " (" + d.experienceLevel + ")" in lines
      && "- Background: " + args.characterBackground in lines
      && "- Class: " + args.characterClass in lines
      && "- Wanted/Hostile: " + (if args.isWanted then WantedYes else "No") in lines
  {
    var lines := PromptLines(args, d);
    assert lines[12] == "- Name: " + args.characterName;
    assert lines[13] == "- Level: " + d.levelText + " (" + d.experienceLevel + ")";
    assert lines[14] == "- Background: " + args.characterBackground;
    assert lines[15] == "- Class: " + args.characterClass;
    assert lines[16] == "- Wanted/Hostile: " + (if args.isWanted then WantedYes else "No");
  }

  /** Every substituted value appears verbatim, on its labelled line, in the
      rendered prompt, and so do the hooks and threat fragments. */
  lemma PromptContainsValues(args: PromptArgs)
    ensures var p, d := RenderPrompt(args), DerivedOf(args);
      && Contains(p, "SCENE TYPE: " + args.sceneType)
      && Contains(p, "- Name: " + args.locationName)
      && Contains(p, "- Role: " + args.locationRole)
      && Contains(p, "- Base Description: " + args.locationSummary)
      && Contains(p, "- Known For: " + d.productsText)
      && Contains(p, "- Time: " + args.timeOfDay)
      && Contains(p, "- Weather: " + args.weather)
      && Contains(p, "- Name: " + args.characterName)
      && Contains(p, "- Level: " + d.levelText + " (" + d.experienceLevel + ")")
      && Contains(p, "- Background: " + args.characterBackground)
      && Contains(p, "- Class: " + args.characterClass)
      && Contains(p, "- Wanted/Hostile: " + (if args.isWanted then WantedYes else "No"))
      && Contains(p, d.hooksText)
      && Contains(p, d.signsText)
  {
    PromptHasLines(args);
    PromptLinesShowScene(args, DerivedOf(args));
    PromptLinesShowCharacter(args, DerivedOf(args));
    if args.questHooks == [] {
      assert OccursAt(RenderPrompt(args), DerivedOf(args).hooksText, 0);
    }
    if args.earlySigns == [] {
      assert OccursAt(RenderPrompt(args), DerivedOf(args).signsText, 0);
    }
  }

  /** `build_scene_generator_prompt`: the hooks fragment is built by a loop
      over the first two hooks, the rest by the fragment functions. */
  method BuildScenePrompt(args: PromptArgs) returns (prompt: string)
    ensures prompt == RenderPrompt(args)
  {
    var experienceLevel := ExperienceLevel(args.characterLevel);
    var hooksText := "";
    if args.questHooks != [] {
      var shown := Take(args.questHooks, 2);
      var hooksList: seq<string> := [];
      for i := 0 to |shown|
        invariant hooksList == HookLines(shown[..i])
      {
        var hook := shown[i];
        var hookType := hook.hookType.GetOr("conversation");
        var hookDesc := hook.description.GetOr("");
        hooksList := hooksList + ["- " + Capitalize(hookType) + ": " + hookDesc];
      }
      assert shown[..|shown|] == shown;
      hooksText := Join("\n", hooksList);
    }
    var productsText := ProductsText(args.signatureProducts);
    var derived := Derived(IntToString(args.characterLevel), experienceLevel, productsText,
                           hooksText, EarlySignsText(args.earlySigns));
    prompt := Join("\n", PromptLines(args, derived));
  }
}
