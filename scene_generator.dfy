/** `generate_scene_description`: defaulting of the context fields, the
    remote text-generation call (a parameter here), the splitting of the
    reply into a description and a `why_here` sentence, and the fixed
    fallback used when the call fails. */
module SceneGenerator {
  import opened Wrappers
  import opened PyStr
  import opened ScenePrompt

  // ---------------------------------------------------------------------
  // Context records; a field is `None` when its key is missing
  // ---------------------------------------------------------------------

  datatype Location = Location(
    name: Option<string>,
    role: Option<string>,
    summary: Option<string>,
    signatureProducts: Option<seq<string>>)

  /** `className` is the "class" key, `classAlias` the "class_" key. */
  datatype CharacterState = CharacterState(
    name: Option<string>,
    level: Option<int>,
    background: Option<string>,
    className: Option<string>,
    classAlias: Option<string>)

  datatype WorldState = WorldState(
    timeOfDay: Option<string>,
    weather: Option<string>,
    guardsHostile: Option<bool>,
    cityHostile: Option<bool>)

  datatype GlobalThreat = GlobalThreat(earlySignsNearStartingTown: Option<seq<string>>)

  datatype WorldBlueprint = WorldBlueprint(globalThreat: Option<GlobalThreat>)

  /** The record handed back to the caller. */
  datatype SceneResult = SceneResult(location: string, description: string, whyHere: string)

  // ---------------------------------------------------------------------
  // Defaulting
  // ---------------------------------------------------------------------

  /** The character's class: the "class" key, else the "class_" key, else "unknown". */
  function CharacterClass(character: CharacterState): (cls: string)
    ensures character.className.Some? ==> cls == character.className.value
    ensures character.className.None? && character.classAlias.Some? ==> cls == character.classAlias.value
    ensures character.className.None? && character.classAlias.None? ==> cls == "unknown"
  {
    character.className.GetOr(character.classAlias.GetOr("unknown"))
  }

  /** The character is wanted when the guards or the city are hostile; a
      missing flag counts as not hostile. */
  function IsWanted(world: WorldState): (wanted: bool)
    ensures wanted <==> world.guardsHostile == Some(true) || world.cityHostile == Some(true)
  {
    world.guardsHostile.GetOr(false) || world.cityHostile.GetOr(false)
  }

  /** The early signs near the starting town, empty when the threat or its list is missing. */
  function EarlySigns(blueprint: WorldBlueprint): (signs: seq<string>) {
    match blueprint.globalThreat
    case None => []
    case Some(threat) => threat.earlySignsNearStartingTown.GetOr([])
  }

  /** The values `generate_scene_description` passes to the prompt builder. */
  function GatherArgs(sceneType: string, location: Location, character: CharacterState,
                      world: WorldState, blueprint: WorldBlueprint,
                      questHooks: Option<seq<QuestHook>>): (args: PromptArgs)
  {
    PromptArgs(
      sceneType,
      location.name.GetOr("Unknown"),
      location.role.GetOr("settlement"),
      location.summary.GetOr("A mysterious place"),
      location.signatureProducts.GetOr([]),
      character.name.GetOr("Adventurer"),
      character.level.GetOr(1),
      character.background.GetOr("wanderer"),
      CharacterClass(character),
      world.timeOfDay.GetOr("midday"),
      world.weather.GetOr("clear"),
      IsWanted(world),
      EarlySigns(blueprint),
      questHooks.GetOr([]))
  }

  /** A missing field gets its literal default. */
  lemma GatherDefaults(sceneType: string, location: Location, character: CharacterState,
                       world: WorldState, blueprint: WorldBlueprint, questHooks: Option<seq<QuestHook>>)
    ensures var args := GatherArgs(sceneType, location, character, world, blueprint, questHooks);
      && (location.name.None? ==> args.locationName == "Unknown")
      && (location.role.None? ==> args.locationRole == "settlement")
      && (location.summary.None? ==> args.locationSummary == "A mysterious place")
      && (location.signatureProducts.None? ==> args.signatureProducts == [])
      && (character.name.None? ==> args.characterName == "Adventurer")
      && (character.level.None? ==> args.characterLevel == 1)
      && (character.background.None? ==> args.characterBackground == "wanderer")
      && (character.className.None? && character.classAlias.None? ==> args.characterClass == "unknown")
      && (world.timeOfDay.None? ==> args.timeOfDay == "midday")
      && (world.weather.None? ==> args.weather == "clear")
      && (world.guardsHostile.None? && world.cityHostile.None? ==> !args.isWanted)
      && (blueprint.globalThreat.None? ==> args.earlySigns == [])
      && (blueprint.globalThreat.Some? && blueprint.globalThreat.value.earlySignsNearStartingTown.None? ==>
            args.earlySigns == [])
      && (questHooks.None? || questHooks == Some([]) ==> args.questHooks == [])
  {
  }

  /** A field that is present is passed on unchanged. */
  lemma GatherKeepsGiven(sceneType: string, location: Location, character: CharacterState,
                         world: WorldState, blueprint: WorldBlueprint, questHooks: Option<seq<QuestHook>>)
    ensures var args := GatherArgs(sceneType, location, character, world, blueprint, questHooks);
      && args.sceneType == sceneType
      && (location.name.Some? ==> args.locationName == location.name.value)
      && (location.role.Some? ==> args.locationRole == location.role.value)
      && (location.summary.Some? ==> args.locationSummary == location.summary.value)
      && (location.signatureProducts.Some? ==> args.signatureProducts == location.signatureProducts.value)
      && (character.name.Some? ==> args.characterName == character.name.value)
      && (character.level.Some? ==> args.characterLevel == character.level.value)
      && (character.background.Some? ==> args.characterBackground == character.background.value)
      && (world.timeOfDay.Some? ==> args.timeOfDay == world.timeOfDay.value)
      && (world.weather.Some? ==> args.weather == world.weather.value)
      && (character.className.Some? ==> args.characterClass == character.className.value)
      && (character.className.None? && character.classAlias.Some? ==> args.characterClass == character.classAlias.value)
      && (args.isWanted <==> world.guardsHostile == Some(true) || world.cityHostile == Some(true))
      && (blueprint.globalThreat.Some? && blueprint.globalThreat.value.earlySignsNearStartingTown.Some? ==>
            args.earlySigns == blueprint.globalThreat.value.earlySignsNearStartingTown.value)
      && (questHooks.Some? ==> args.questHooks == questHooks.value)
  {
  }

  // ---------------------------------------------------------------------
  // Splitting the generated text
  // ---------------------------------------------------------------------

  /** The separator the reply is cut at. */
  const SentenceBreak: string := ". "

  /** The user message sent beside the system prompt. */
  function UserMessage(sceneType: string, locationName: string): (message: string) {
    "Generate scene description for " + sceneType + " at " + locationName
  }

  /** The `why_here` used when the reply has no sentence break. */
  function ArrivalSentence(locationName: string): (s: string)
    ensures EndsWith(s, ".")
  {
    "You arrive in " + locationName + ", ready for whatever awaits."
  }

  /** The `why_here` of the fallback result. */
  function FallbackSentence(locationName: string): (s: string)
    ensures EndsWith(s, ".")
  {
    "You have arrived in " + locationName + " seeking adventure and fortune. The world awaits your choices."
  }

  /** `s` with a period appended unless it already ends with one. */
  function Terminated(s: string): (t: string)
    ensures EndsWith(t, ".")
    ensures EndsWith(s, ".") ==> t == s
    ensures !EndsWith(s, ".") ==> t == s + "."
  {
    if EndsWith(s, ".") then s else s + "."
  }

  /** The result built from the stripped generated text: everything before
      the last ". " becomes the description, the trimmed rest `why_here`. */
  function ParseScene(locationName: string, generatedText: string): (r: SceneResult)
    ensures r.location == locationName
    ensures EndsWith(r.whyHere, ".")
  {
    SceneOfSentences(locationName, generatedText, Split(generatedText, SentenceBreak))
  }

  /** The result for `generatedText` once it is cut into `sentences`. */
  function SceneOfSentences(locationName: string, generatedText: string, sentences: seq<string>): (r: SceneResult)
    ensures r.location == locationName
    ensures EndsWith(r.whyHere, ".")
  {
    if |sentences| >= 2 then
      SceneResult(locationName,
                  Join(SentenceBreak, sentences[..|sentences| - 1]) + ".",
                  Terminated(Strip(sentences[|sentences| - 1])))
    else
      SceneResult(locationName, generatedText, ArrivalSentence(locationName))
  }

  /** `ParseScene` sees the text only through its split. */
  lemma ParseSceneBySplit(locationName: string, generatedText: string, sentences: seq<string>)
    requires Split(generatedText, SentenceBreak) == sentences
    ensures ParseScene(locationName, generatedText) == SceneOfSentences(locationName, generatedText, sentences)
  {
  }

  /** A sentence that is already trimmed and period-terminated is kept as it is. */
  lemma TerminatedTrimmed(sentence: string)
    requires EndsWith(sentence, ".") && !IsSpace(sentence[0])
    ensures Terminated(Strip(sentence)) == sentence
  {
    assert sentence[|sentence| - 1] == '.' by { assert sentence[|sentence| - 1..] == "."; }
    StripTrimmed(sentence);
  }

  /** With a sentence break in the text, the description is the sentences
      before the last, re-joined, with a final period; `why_here` is the
      trimmed last sentence, which holds no break, period-terminated. */
  lemma ParseSceneSentences(locationName: string, generatedText: string)
    requires Contains(generatedText, SentenceBreak)
    ensures var r, sentences := ParseScene(locationName, generatedText), Split(generatedText, SentenceBreak);
      && |sentences| >= 2
      && r.description == Join(SentenceBreak, sentences[..|sentences| - 1]) + "."
      && r.whyHere == Terminated(Strip(sentences[|sentences| - 1]))
      && !Contains(sentences[|sentences| - 1], SentenceBreak)
      && EndsWith(r.description, ".")
  {
    var sentences := Split(generatedText, SentenceBreak);
    SplitSingleIff(generatedText, SentenceBreak);
    SplitIsLeftmost(generatedText, SentenceBreak);
    ParseSceneBySplit(locationName, generatedText, sentences);
  }

  /** The description without its final period, then ". ", then the last
      sentence as split off, rebuilds the generated text exactly. */
  lemma ParseSceneRoundTrip(locationName: string, generatedText: string)
    requires Contains(generatedText, SentenceBreak)
    ensures var r, sentences := ParseScene(locationName, generatedText), Split(generatedText, SentenceBreak);
      && |r.description| >= 1
      && r.description[..|r.description| - 1] + SentenceBreak + sentences[|sentences| - 1] == generatedText
  {
    var sentences := Split(generatedText, SentenceBreak);
    SplitSingleIff(generatedText, SentenceBreak);
    ParseSceneBySplit(locationName, generatedText, sentences);
    var description := ParseScene(locationName, generatedText).description;
    assert description == Join(SentenceBreak, sentences[..|sentences| - 1]) + ".";
    RejoinLastSentence(sentences);
    JoinSplit(generatedText, SentenceBreak);
    assert Join(SentenceBreak, sentences) == generatedText;
  }

  /** The re-joined sentences before the last, the break and the last
      sentence make up the join of all of them. */
  lemma RejoinLastSentence(sentences: seq<string>)
    requires |sentences| >= 2
    ensures var description := Join(SentenceBreak, sentences[..|sentences| - 1]) + ".";
      description[..|description| - 1] + SentenceBreak + sentences[|sentences| - 1] == Join(SentenceBreak, sentences)
  {
    var n := |sentences|;
    var head := Join(SentenceBreak, sentences[..n - 1]);
    assert (head + ".")[..|head + "."| - 1] == head;
    assert sentences == sentences[..n - 1] + [sentences[n - 1]];
    JoinSnoc(SentenceBreak, sentences[..n - 1], sentences[n - 1]);
  }

  /** Without a sentence break the whole text is the description and
      `why_here` is the generic arrival sentence. */
  lemma ParseSceneSingle(locationName: string, generatedText: string)
    requires !Contains(generatedText, SentenceBreak)
    ensures ParseScene(locationName, generatedText)
      == SceneResult(locationName, generatedText,
                     "You arrive in " + locationName + ", ready for whatever awaits.")
  {
    SplitSingleIff(generatedText, SentenceBreak);
    ParseSceneBySplit(locationName, generatedText, Split(generatedText, SentenceBreak));
  }

  /** Sentences joined with ". " come apart again: when no sentence holds a
      break and the last one is trimmed and ends with a period, the
      description is the earlier sentences re-joined plus a period and
      `why_here` is the last sentence itself. */
  lemma ParseSceneOfSentences(locationName: string, sentences: seq<string>)
    requires |sentences| >= 2
    requires forall k :: 0 <= k < |sentences| ==> !Contains(sentences[k], SentenceBreak)
    requires EndsWith(sentences[|sentences| - 1], ".") && !IsSpace(sentences[|sentences| - 1][0])
    ensures ParseScene(locationName, Join(SentenceBreak, sentences))
      == SceneResult(locationName, Join(SentenceBreak, sentences[..|sentences| - 1]) + ".",
                     sentences[|sentences| - 1])
  {
    var text := Join(SentenceBreak, sentences);
    SplitJoin(SentenceBreak, sentences);
    ParseSceneBySplit(locationName, text, sentences);
    TerminatedTrimmed(sentences[|sentences| - 1]);
  }

  /** A reply made only of whitespace yields an empty description and the
      generic arrival sentence. */
  lemma BlankReplyGivesEmptyDescription(locationName: string, reply: string)
    requires forall k :: 0 <= k < |reply| ==> IsSpace(reply[k])
    ensures ParseScene(locationName, Strip(reply)).description == ""
    ensures ParseScene(locationName, Strip(reply)).whyHere == ArrivalSentence(locationName)
  {
    StripBlank(reply);
    assert !Contains("", SentenceBreak);
    ParseSceneSingle(locationName, "");
  }

  // ---------------------------------------------------------------------
  // The operation
  // ---------------------------------------------------------------------

  /** `generate_scene_description`. `complete` stands for the remote call
      from the system prompt and the user message: `None` is any failure of
      client construction, the call or the access to the reply's content,
      `Some(content)` the content returned. */
  method GenerateSceneDescription(sceneType: string, location: Location, character: CharacterState,
                                  world: WorldState, blueprint: WorldBlueprint,
                                  availableQuestHooks: Option<seq<QuestHook>>,
                                  complete: (string, string) -> Option<string>)
    returns (result: SceneResult)
    ensures var args := GatherArgs(sceneType, location, character, world, blueprint, availableQuestHooks);
      var reply := complete(RenderPrompt(args), UserMessage(sceneType, args.locationName));
      && result.location == args.locationName
      && EndsWith(result.whyHere, ".")
      && (reply.None? ==>
            result.description == args.locationSummary && result.whyHere == FallbackSentence(args.locationName))
      && (reply.Some? ==> result == ParseScene(args.locationName, Strip(reply.value)))
  {
    var args := GatherArgs(sceneType, location, character, world, blueprint, availableQuestHooks);
    var prompt := BuildScenePrompt(args);
    var reply := complete(prompt, UserMessage(sceneType, args.locationName));
    result := SceneFromReply(args.locationName, args.locationSummary, reply);
  }

  /** The result for the outcome of the remote call: the fallback on failure,
      the split of the stripped content otherwise. */
  method SceneFromReply(locationName: string, locationSummary: string, reply: Option<string>)
    returns (result: SceneResult)
    ensures result.location == locationName
    ensures EndsWith(result.whyHere, ".")
    ensures reply.None? ==> result == SceneResult(locationName, locationSummary, FallbackSentence(locationName))
    ensures reply.Some? ==> result == ParseScene(locationName, Strip(reply.value))
  {
    match reply {
      case None =>
        result := SceneResult(locationName, locationSummary, FallbackSentence(locationName));
      case Some(content) =>
        var generatedText := Strip(content);
        var sentences := Split(generatedText, SentenceBreak);
        result := SceneFromSentences(locationName, generatedText, sentences);
        ParseSceneBySplit(locationName, generatedText, sentences);
    }
  }

  /** The description and `why_here` cut from `generatedText`, already split
      into `sentences`. */
  method SceneFromSentences(locationName: string, generatedText: string, sentences: seq<string>)
    returns (result: SceneResult)
    ensures result == SceneOfSentences(locationName, generatedText, sentences)
  {
    var description, whyHere;
    if |sentences| >= 2 {
      description := Join(SentenceBreak, sentences[..|sentences| - 1]) + ".";
      whyHere := Strip(sentences[|sentences| - 1]);
      if !EndsWith(whyHere, ".") {
        whyHere := whyHere + ".";
      }
    } else {
      description := generatedText;
      whyHere := ArrivalSentence(locationName);
    }
    result := SceneResult(locationName, description, whyHere);
  }
}
