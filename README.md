# Scene generator model

A Dafny model of the dynamic scene generator service
(`backend/services/scene_generator.py`). The service takes a scene type and
four context mappings: the location, the character state, the world state
and the world blueprint. It also takes an optional list of quest hooks. It
fills every missing field with a literal default and builds a system prompt
from the values. It then asks a remote text-generation model for a scene.
The reply is cut into a `description` and a one-sentence `why_here`. When
anything in the remote call fails, the service returns a fixed fallback.

Modules:

- `Wrappers` (`wrappers.dfy`) holds `Option`, used for a missing key and for
  the outcome of the remote call. `GetOr` plays the part of `dict.get(key, default)`.
- `PyStr` (`pystr.dfy`) holds the Python `str` operations the service
  relies on, stated over `seq<char>`:
  - `find` and `split(sep)`, with leftmost non-overlapping matches;
  - `sep.join`;
  - `strip()`, over the full `str.isspace` set;
  - `endswith`;
  - `capitalize()`;
  - `str(int)`.
- `ScenePrompt` (`scene_prompt.dfy`) models `build_scene_generator_prompt`.
  It covers the experience tier, the quest-hook loop, the products,
  early-sign and hostility fragments, and the labelled lines that carry the
  values.
- `SceneGenerator` (`scene_generator.dfy`) models `generate_scene_description`.
  It covers:
  - the context records and their defaults;
  - the remote call, taken as a parameter `complete`;
  - the response splitter;
  - the fail-open fallback.

The context mappings are modelled as records whose fields are `Option`s. A
field is `None` when its key is missing. The remote call is the parameter
`complete: (string, string) -> Option<string>`. It receives the system
prompt and the user message. It returns `None` for any failure, and
`Some(content)` for the text the model returned.

## Model

| member | source | states |
|---|---|---|
| Wrappers.Option.GetOr | backend/services/scene_generator.py:38-49 | a present value is returned as is; a missing one gives the default |
| SceneGenerator.GatherDefaults | backend/services/scene_generator.py:35-57 | each missing field gets its literal default: "Unknown", "settlement", "A mysterious place", no products, "Adventurer", level 1, "wanderer", class "unknown", "midday", "clear", not wanted; a missing global_threat, or one without early_signs_near_starting_town, gives no early signs; a missing or empty hook list gives no hooks |
| SceneGenerator.GatherKeepsGiven | backend/services/scene_generator.py:35-57 | each field that is present reaches the prompt unchanged, including a present "class" (or, without it, "class_"), the early signs under the global threat and a non-empty hook list; wanted holds exactly when either hostility flag is present and true |
| SceneGenerator.CharacterClass | backend/services/scene_generator.py:46 | the class is the "class" key if present, else the "class_" key if present, else "unknown" |
| SceneGenerator.IsWanted | backend/services/scene_generator.py:53 | wanted holds exactly when guards_hostile or city_hostile is present and true |
| SceneGenerator.GatherArgs | backend/services/scene_generator.py:35-57 | the defaulted values passed to the prompt builder; GatherDefaults and GatherKeepsGiven state their defaults and pass-through |
| SceneGenerator.EarlySigns | backend/services/scene_generator.py:56-57 | the early signs under global_threat, none when either key is missing; stated by GatherDefaults and GatherKeepsGiven |
| SceneGenerator.UserMessage | backend/services/scene_generator.py:84 | "Generate scene description for {scene_type} at {location_name}"; GenerateSceneDescription states that the remote call receives it with the defaulted name |
| SceneGenerator.SceneOfSentences | backend/services/scene_generator.py:97-106 | location is the name and why_here ends with "." in both branches; ParseSceneSentences and ParseSceneSingle state each branch |
| SceneGenerator.ParseScene | backend/services/scene_generator.py:95-108 | the result's location is the location name, and why_here ends with "." whichever branch is taken |
| SceneGenerator.ParseSceneSentences | backend/services/scene_generator.py:95-102 | with a ". " in the text: there are at least two pieces; the description is the pieces before the last, joined by ". ", plus "."; why_here is the stripped last piece, period-terminated; the last piece holds no ". "; the description ends with "." |
| SceneGenerator.ParseSceneRoundTrip | backend/services/scene_generator.py:90-98 | with a ". " in the text, the description minus its final "." + ". " + the last piece gives back the stripped generated text exactly |
| SceneGenerator.RejoinLastSentence | backend/services/scene_generator.py:98 | for two or more pieces, the joined head minus the added "." + ". " + the last piece is the join of all pieces |
| SceneGenerator.ParseSceneSingle | backend/services/scene_generator.py:95-106 | without a ". " the description is the whole text and why_here is "You arrive in {name}, ready for whatever awaits." |
| SceneGenerator.ParseSceneOfSentences | backend/services/scene_generator.py:95-102 | sentences joined by ". " are recovered when none holds ". " and the last is trimmed and ends with "." |
| SceneGenerator.BlankReplyGivesEmptyDescription | backend/services/scene_generator.py:90-105 | a reply made only of whitespace gives an empty description and the generic arrival sentence as why_here |
| SceneGenerator.Terminated | backend/services/scene_generator.py:100-101 | the result ends with "."; a text already ending with "." is unchanged; any other text gets one "." appended |
| SceneGenerator.TerminatedTrimmed | backend/services/scene_generator.py:99-101 | a trimmed sentence that ends with "." comes out of strip-and-terminate unchanged |
| SceneGenerator.ArrivalSentence | backend/services/scene_generator.py:106 | the generic why_here ends with "." |
| SceneGenerator.FallbackSentence | backend/services/scene_generator.py:122 | the fallback why_here ends with "." |
| SceneGenerator.GenerateSceneDescription | backend/services/scene_generator.py:13-123 | always returns a result whose location is the defaulted name and whose why_here ends with "."; on failure, description is the defaulted summary and why_here is the fixed fallback; on success, the result is the split of the stripped reply to the prompt built from the defaulted values |
| SceneGenerator.SceneFromReply | backend/services/scene_generator.py:78-123 | maps the call's outcome to the fallback on failure, and to the split of the stripped content on success |
| SceneGenerator.SceneFromSentences | backend/services/scene_generator.py:97-106 | the description and why_here assigned in the two branches, including the conditional "." append, equal the specification of the split |
| ScenePrompt.ExperienceLevel | backend/services/scene_generator.py:146 | "inexperienced" exactly when level <= 3; "seasoned" exactly when 4 <= level <= 7; "legendary" exactly when level >= 8 |
| ScenePrompt.ExperienceLevelMonotone | backend/services/scene_generator.py:146 | a higher level never gives a lower tier |
| ScenePrompt.ProductsTextLists | backend/services/scene_generator.py:159 | no products give "various goods"; otherwise splitting the fragment at ", " gives exactly the first min(3, n) products in order, when no product holds ", " |
| ScenePrompt.HookLineIsOneLine | backend/services/scene_generator.py:153-155 | a hook whose type and description hold no line break renders as one line |
| ScenePrompt.HooksTextLines | backend/services/scene_generator.py:149-156 | no hooks give ""; otherwise, when no shown hook's type or description holds a line break, the fragment has min(2, n) lines, each "- " + the capitalized type (default "conversation") + ": " + the description (default ""), in hook order |
| ScenePrompt.EarlySignsTextLines | backend/services/scene_generator.py:200 | no signs give ""; otherwise, when no shown sign holds a line break, the fragment has min(2, n) lines, each "- " + the sign, in order |
| ScenePrompt.Take | backend/services/scene_generator.py:152 | the slice `xs[:n]` has length min(n, \|xs\|) and is a prefix of xs |
| ScenePrompt.ProductsText | backend/services/scene_generator.py:159 | the "Known For" fragment; ProductsTextLists states it |
| ScenePrompt.HookLine | backend/services/scene_generator.py:153-155 | one hook's line with the "conversation" and "" defaults; HookLineIsOneLine and HooksTextLines state its form |
| ScenePrompt.HookLines | backend/services/scene_generator.py:152-155 | one line per hook, the k-th being the k-th hook's line |
| ScenePrompt.HooksText | backend/services/scene_generator.py:149-156 | the hooks fragment; HooksTextLines states it |
| ScenePrompt.SignLines | backend/services/scene_generator.py:200 | one "- sign" line per sign, in order |
| ScenePrompt.EarlySignsText | backend/services/scene_generator.py:200 | the threat fragment; EarlySignsTextLines states it |
| ScenePrompt.DerivedOf | backend/services/scene_generator.py:146-159 | the level text, tier and fragments the prompt substitutes; each one is stated by the lemma for its function |
| ScenePrompt.PromptLines | backend/services/scene_generator.py:161-282 | the prompt's lines; PromptLinesShowScene and PromptLinesShowCharacter state which labelled lines are among them |
| ScenePrompt.RenderPrompt | backend/services/scene_generator.py:161-284 | the lines joined by line breaks; PromptHasLines and PromptContainsValues state what it contains, and BuildScenePrompt builds it |
| ScenePrompt.PromptHasLines | backend/services/scene_generator.py:161-282 | every line of the prompt template occurs verbatim in the rendered prompt |
| ScenePrompt.PromptLinesShowScene | backend/services/scene_generator.py:173-200 | the scene type and each location value sit on their labelled lines; the hook fragment is present when there are hooks, the threat fragment when there are signs |
| ScenePrompt.PromptLinesShowCharacter | backend/services/scene_generator.py:189-194 | the character name, level with tier, background, class and hostility answer sit on their labelled lines |
| ScenePrompt.PromptContainsValues | backend/services/scene_generator.py:161-200 | the rendered prompt contains every labelled value line, the hooks fragment and the threat fragment |
| ScenePrompt.BuildScenePrompt | backend/services/scene_generator.py:126-284 | the prompt built with the hook loop (at most two hooks, missing keys defaulted) is the rendered prompt |
| PyStr.FindFrom | backend/services/scene_generator.py:95 | the result is the first occurrence at or after k; None means there is none |
| PyStr.Find | backend/services/scene_generator.py:95 | the result is the first occurrence; None holds exactly when the text does not contain the separator |
| PyStr.Split | backend/services/scene_generator.py:95 | split always yields at least one piece |
| PyStr.SplitIsLeftmost | backend/services/scene_generator.py:95 | split's pieces join back to the text; the last piece holds no separator; each earlier piece ends at the first separator after it |
| PyStr.LeftmostSplitIsSplit | backend/services/scene_generator.py:95 | any cutting with those three properties is split's result, so split is unique |
| PyStr.SplitSingleIff | backend/services/scene_generator.py:95-97 | split yields a single piece exactly when the separator does not occur |
| PyStr.JoinSplit | backend/services/scene_generator.py:95-98 | joining split's pieces with the separator gives back the text |
| PyStr.SplitJoin | backend/services/scene_generator.py:156-159 | splitting a join gives back the pieces, when none holds the separator and the separator is one character or two different characters (", ", "\n" and ". " all are) |
| PyStr.JoinSnoc | backend/services/scene_generator.py:98 | joining pieces plus one more is the join of the pieces, the separator, then the last |
| PyStr.JoinContainsPiece | backend/services/scene_generator.py:161-282 | every piece occurs in the join |
| PyStr.Join | backend/services/scene_generator.py:98 | `sep.join`; JoinSplit, SplitJoin, JoinSnoc and JoinContainsPiece state it |
| PyStr.EndsWith | backend/services/scene_generator.py:100 | `s.endswith(suffix)`; Terminated states its use |
| PyStr.IsSpace | backend/services/scene_generator.py:90 | the characters `str.isspace` accepts; StripLeft, StripRight, Strip and StripRemovesOnlyWhitespace state what is removed in its terms |
| PyStr.StripLeft | backend/services/scene_generator.py:90 | the result is a suffix; everything removed is whitespace; the result does not start with whitespace |
| PyStr.StripRight | backend/services/scene_generator.py:90 | the result is a prefix; everything removed is whitespace; the result does not end with whitespace |
| PyStr.Strip | backend/services/scene_generator.py:90 | the result neither starts nor ends with whitespace |
| PyStr.StripRemovesOnlyWhitespace | backend/services/scene_generator.py:90 | the result sits in the text with only whitespace before and after it |
| PyStr.StripTrimmed | backend/services/scene_generator.py:99 | a text with no surrounding whitespace is left alone |
| PyStr.StripIdempotent | backend/services/scene_generator.py:90-99 | stripping twice is stripping once |
| PyStr.StripBlank | backend/services/scene_generator.py:90 | an all-whitespace text strips to the empty text |
| PyStr.Capitalize | backend/services/scene_generator.py:155 | length is kept; the first character is upper-cased and the rest lower-cased |
| PyStr.CapitalizeIdempotent | backend/services/scene_generator.py:155 | capitalizing twice is capitalizing once |
| PyStr.CapitalizeKeepsNewlines | backend/services/scene_generator.py:155 | capitalize adds and removes no line break |
| PyStr.NatToDecimal | backend/services/scene_generator.py:191 | the level's digits are decimal digits with no leading zero |
| PyStr.DecimalRoundTrip | backend/services/scene_generator.py:191 | reading back the digits of a level gives the level |
| PyStr.IntToString | backend/services/scene_generator.py:191 | the rendering is non-empty and starts with "-" exactly for a negative level |

## Left out

- The remote call is not modelled. This covers the client construction (`get_openai_client`), the model id, the temperature, the token limit and the message structure. It is the parameter `complete`, whose `None` stands for every exception the `try` block catches.
- The exception taxonomy is not modelled: every failure inside the `try` is one `None`.
- Code outside the `try` cannot fail in the model. This covers prompt building and the `.get` calls.
- Logging is not modelled.
- The authored wording of the prompt is abstracted. This is the failure conditions, the scene-type guide, the narration, style and output rules, the examples and the reminders. They are the placeholder constants `Preamble`, `SceneTypeGuide` and `NarrationRules`. The lines that carry values are exact, and so are their fixed labels and headings.
- The blank-line layout of the authored template is abstracted. The model keeps the blank lines that separate the value sections and the conditional hook and threat blocks.
- The `reputation` argument is not modelled. It is read and passed to the prompt builder, but the prompt never uses it.
- `backend/services/prompts.py` is not part of this model. It holds only prompt constants, which the scene generator does not use.
- Present-but-null or wrongly typed values in the context mappings cannot be expressed. Examples are a `None` name, a string level and a non-boolean hostility flag. The records are typed.
- IsWanted: it is a `bool`. Python's `or` would pass a truthy non-boolean flag through as-is; the model cannot express such a flag.
- A hook that is not a mapping, or a `None` hook type, is not modelled. The source would raise before the `try`.
- Capitalize: case mapping covers ASCII letters only. Python's `str.capitalize` maps the whole Unicode range, including title-case and multi-character mappings.
- BlankReplyGivesEmptyDescription: a blank reply gives an empty description, and a present empty name gives an empty location. Nothing in the service makes either of them non-empty, so the model promises neither.
