# Turn engine of the branching story service

A Dafny model of the turn engine behind an interactive-fiction backend. Stories
hold a sequence of nodes; each node carries generated text and an inclusive
range of word-count addresses `[tokenStart, tokenEnd]`. The player can rewind
to any address. The model covers:

- `createStory`: a story with one SYSTEM genesis node at address 0, whose text
  is the generator's opening or a fixed fallback.
- `submitTurn`:
  - an ownership-filtered lookup;
  - rewind resolution, where the first node whose range covers the token wins;
  - pruning every node after it;
  - the generation call, with the mock turn substituted when the generator
    throws;
  - paragraph parsing (`split('\n')`, `trim`, `filter(Boolean)`,
    `slice(0, 2)`);
  - addressing (`split(/\s+/).length`);
  - the append of the new node.
- `getStory` and `deleteStory`, through the same owner filter.
- `buildPrompt`, the pure template that turns the retained nodes into the
  generation request.

The service is modelled as pure functions over a store, `map<string, Story>`.
Each story holds its nodes in creation order. The external generator is a
parameter `string -> Option<string>`, where `None` stands for a throw. The
generator's reply to the opening prompt is passed to creation as an
`Option<string>`. Database-assigned ids are parameters too.

The JavaScript string built-ins are modelled exactly:

- `trim` and the regex class `\s` use the ECMAScript WhiteSpace and
  LineTerminator code points;
- `"".split('\n')` is `[""]`;
- `"".split(/\s+/)` is `[""]`, so an empty text still spans one address.

Modules: `Wrappers` (Option, Result), `Entities` (Node, Story, Store),
`Text` (the string built-ins), `Paragraphs` (the paragraph parse), `Prompt`
(`buildPrompt`) and `Stories` (the service).

## Behaviour of the code worth noting

- A new node's `tokenStart` is the rewind token, not the previous node's
  `tokenEnd`. Addresses are therefore not contiguous: the new node starts
  inside its parent's range. The invariant proved is exactly that
  (`Stories.WellFormed`).
- The rewind token is mandatory. A missing one compares false with every
  bound and is rejected as an invalid rewind token.
- An empty reply from the generator is not replaced by the fallback. It
  parses to no paragraphs, an empty text and a one-address node.
- `buildPrompt` always receives every retained node, with no selection or
  summarization, and the action type is passed through unvalidated.

## Model

| member | source | states |
|---|---|---|
| Text.TrimStart | src/stories/stories.service.ts:71 | The result is a suffix of the input; everything cut before it is whitespace; it does not start with whitespace. |
| Text.TrimEnd | src/stories/stories.service.ts:71 | The result is a prefix of the input; everything cut after it is whitespace; it does not end with whitespace. |
| Text.Trim | src/stories/stories.service.ts:71 | `trim()` gives a string whose ends are not whitespace and which is no longer than the input. |
| Text.TrimIsSlice | src/stories/stories.service.ts:71 | The trimmed text is a contiguous slice of the input with only whitespace removed on both sides. |
| Text.TrimSurrounded | src/stories/stories.service.ts:71 | Trimming whitespace around a non-empty trimmed core gives exactly that core. |
| Text.TrimIdentity | src/stories/stories.service.ts:71 | Trimming is the identity on a string whose ends are not whitespace. |
| Text.TrimEmptyIffBlank | src/stories/stories.service.ts:71-72 | A line trims to the empty string, which `filter(Boolean)` drops, if and only if it is all whitespace. |
| Text.TrimFramed | src/ai/prompt.builder.ts:12-33 | Trimming a text framed by one newline on each side gives back the text, when the text's own ends are not whitespace. |
| Text.Split | src/stories/stories.service.ts:70 | `split('\n')` always yields at least one field. |
| Text.SplitFieldsFree | src/stories/stories.service.ts:70 | No field produced by `split` contains the separator. |
| Text.SplitJoin | src/stories/stories.service.ts:70 | Joining the fields of `split(sep)` with `sep` gives back the original string. |
| Text.JoinSplit | src/stories/stories.service.ts:70 | Splitting a join of separator-free fields gives back exactly those fields. |
| Text.SplitAppend | src/stories/stories.service.ts:70 | Splitting `a + sep + b` gives the fields of `a` followed by the fields of `b`. |
| Text.SplitNoSeparator | src/stories/stories.service.ts:70 | A string without the separator splits to itself alone. |
| Text.SplitFirstField | src/stories/stories.service.ts:70 | When the string does not start with the separator, the first field starts with the string's first character. |
| Text.SplitLastField | src/stories/stories.service.ts:70 | When the string does not end with the separator, the last field ends with the string's last character. |
| Text.JoinAppend | src/ai/prompt.builder.ts:10 | Joining one more element appends the separator and that element. |
| Text.JoinTrimmed | src/stories/stories.service.ts:75 | Joining trimmed, non-empty paragraphs with a space gives a trimmed text, empty exactly when there are no paragraphs. |
| Text.WsSplit | src/stories/stories.service.ts:76 | `split(/\s+/)` always yields at least one piece. |
| Text.WsSplitPiecesHaveNoSpace | src/stories/stories.service.ts:76 | No piece of the regex split contains whitespace. |
| Text.TokenCount | src/stories/stories.service.ts:147 | The address length of any text is at least 1. |
| Text.WsSplitCountsWords | src/stories/stories.service.ts:147 | On a text that does not start with whitespace, the regex split has one piece per word, plus one when the text ends in whitespace. |
| Text.TokenCountIsWordCount | src/stories/stories.service.ts:145-148 | On a trimmed non-empty text the address length equals the number of words; on the empty text it is 1 while the word count is 0. |
| Paragraphs.TrimEach | src/stories/stories.service.ts:71 | `map(p => p.trim())` keeps the length and trims element by element. |
| Paragraphs.DropEmpty | src/stories/stories.service.ts:72 | `filter(Boolean)` keeps exactly as many elements as are non-empty, and none of them is empty. |
| Paragraphs.DropEmptyPicksNth | src/stories/stories.service.ts:72 | The j-th kept element is the j-th non-empty element of the input, so the filter keeps order. |
| Paragraphs.ParseParagraphs | src/stories/stories.service.ts:139-143 | The parse yields min(2, number of non-blank lines) paragraphs, each non-empty and trimmed. |
| Paragraphs.ParagraphsAreTrimmedLines | src/stories/stories.service.ts:139-142 | Every element the filter keeps from the trimmed lines is trimmed. |
| Paragraphs.ParagraphIsNthLine | src/stories/stories.service.ts:139-143 | The j-th paragraph is the j-th non-blank line, trimmed, so paragraphs come in line order. |
| Paragraphs.TwoNonBlankLines | src/stories/stories.service.ts:139-143 | A text with two non-blank lines parses to exactly two paragraphs; any further lines are cut. |
| Paragraphs.TwoLinesParagraphs | src/stories/stories.service.ts:139-143 | Two non-blank lines around an empty one parse to those two lines, trimmed. |
| Paragraphs.FirstParagraph | src/stories/stories.service.ts:139-143 | The first paragraph is the first non-blank line, trimmed. |
| Entities.Texts | src/ai/prompt.builder.ts:10 | `nodes.map(n => n.generatedText)`: one text per node, in node order. |
| Prompt.PromptFrame | src/ai/prompt.builder.ts:12-33 | Whatever the fields contain, the prompt starts with the fixed preamble and ends with "Continue the story.". |
| Prompt.TrimOnlyStripsFrame | src/ai/prompt.builder.ts:12-33 | The final `.trim()` removes only the template's opening and closing newline and never touches interpolated fields. |
| Prompt.PromptCarriesStory | src/ai/prompt.builder.ts:21-23 | The prompt contains the genre, protagonist and mature-flag rule lines with the story's values. |
| Prompt.PromptCarriesTurn | src/ai/prompt.builder.ts:10-30 | The prompt contains "Story so far:" followed by the node texts joined by blank lines, then the `Type:` line and the quoted `Intent:` line. |
| Prompt.HistoryExtends | src/ai/prompt.builder.ts:10 | One more node extends the history by a blank line and that node's text. |
| Prompt.PromptDependsOnTextsOnly | src/ai/prompt.builder.ts:4-34 | The prompt depends only on genre, protagonist, mature flag, the nodes' generated texts, the action and the text. |
| Stories.FindOwned | src/stories/stories.service.ts:103-111 | A story is found exactly when it exists and belongs to the caller, and then it is that story. |
| Stories.ResolveRewind | src/stories/stories.service.ts:114-120 | The resolved index is the first node whose inclusive range covers the token; there is none exactly when no node covers it. |
| Stories.BoundaryPicksEarlier | src/stories/stories.service.ts:114-116 | A token equal to one node's end and the next node's start resolves to the earlier node. |
| Stories.Prune | src/stories/stories.service.ts:122-124 | The retained nodes and the deleted tail partition the nodes, and the retained part ends with the resolved node. |
| Stories.SubmitTurn | src/stories/stories.service.ts:96-120 | A turn fails with not-found exactly when the story is missing or foreign, and with invalid-rewind-token exactly when it is owned but no node covers the token. |
| Stories.Reply | src/stories/stories.service.ts:129-143 | The turn's paragraphs are at most two, each non-empty and trimmed. They are the parse of the generator's reply when it answers, and the parse of the mock turn joined by a blank line when it throws. |
| Stories.NewNode | src/stories/stories.service.ts:145-158 | The new node starts at the rewind token, spans at least one address and hangs off the last retained node. |
| Stories.TurnAppendsAfterRewindPoint | src/stories/stories.service.ts:122-166 | After a turn resolved to node k, the story's nodes are `nodes[..k+1]` plus one node with id, parent, action, input, text and range as computed, starting at the token. The other stories and the story's own fields are unchanged. |
| Stories.TurnIgnoresDeletedTail | src/stories/stories.service.ts:122-129 | The turn reads nothing of the pruned tail: two stories that differ only after node k give the same result. |
| Stories.GeneratorFailureAbsorbed | src/stories/stories.service.ts:131-143 | A throwing generator never fails the turn. It yields two paragraphs, which are exactly the two mock sentences when the player's text has no line feed. |
| Stories.BlankSeparatedPair | src/stories/stories.service.ts:136-143 | Two lines joined by a blank line parse to two paragraphs, and to the two lines trimmed when the first has no line feed. |
| Stories.MockTurnShape | src/stories/stories.service.ts:136 | The substituted reply is the first mock sentence, a blank line, then the second, and the mock turn is exactly those two sentences. |
| Stories.MockTurnParses | src/stories/stories.service.ts:177-179 | The joined mock turn parses back to two paragraphs, and to the mock pair itself when the player's text has no line feed. |
| Stories.AddressLength | src/stories/stories.service.ts:145-147 | A node's text spans at least one address, and exactly its word count when it has paragraphs. |
| Stories.CreateStory | src/stories/stories.service.ts:21-94 | Creation adds one story under the new id with the caller's fields and exactly one node, and leaves every other story as it was. |
| Stories.Opening | src/stories/stories.service.ts:60-73 | The opening paragraphs are at most two, each non-empty and trimmed. They are the parse of the generator's reply when it answers, and the parse of the fallback opening when it throws. |
| Stories.CreateWithoutReply | src/stories/stories.service.ts:60-92 | When the generator throws on the opening prompt, the new story's opening has exactly two paragraphs: the protagonist sentence, trimmed, and "The world waits." when the protagonist has no line feed. |
| Stories.NewStory | src/stories/stories.service.ts:78-86 | A new story holding only its SYSTEM genesis node, at address 0 with no parent, already satisfies the story invariant (`Stories.WellFormed`). |
| Stories.Genesis | src/stories/stories.service.ts:75-86 | The genesis node starts at address 0 and spans at least one address. |
| Stories.GenesisNodeShape | src/stories/stories.service.ts:75-86 | The genesis node is a SYSTEM node with no parent and no input, holding the opening paragraphs joined by a space. Its range is `[0, words]`, with at least one address. |
| Stories.OpeningFallbackParses | src/stories/stories.service.ts:64-73 | The fallback opening always parses to two paragraphs, which are its two sentences when the protagonist has no line feed. |
| Stories.DeleteStory | src/stories/stories.service.ts:197-208 | Deletion fails with not-found exactly when the story is missing or foreign; otherwise it removes just that story. |
| Stories.AppendKeepsWellFormed | src/stories/stories.service.ts:150-158 | Cutting after node k and appending a node that hangs off node k and starts inside its range keeps a story well formed. |
| Stories.CreateKeepsStoreValid | src/stories/stories.service.ts:28-88 | Creation keeps every story well formed: genesis SYSTEM node at 0, positive ranges, each parent the previous node, each start inside the parent's range. |
| Stories.TurnKeepsStoreValid | src/stories/stories.service.ts:122-160 | A successful turn keeps every story well formed. |
| Stories.NegativeTokenRejected | src/stories/stories.service.ts:114-120 | In a well-formed story no node covers a negative token, so it is always rejected. |
| Stories.TurnOnGenesisOnly | src/stories/stories.service.ts:114-166 | A turn rewound to the genesis node's end resolves to the genesis node. It gives two nodes, the new one starting at that end with a longer end. |
| Stories.FirstTurnAfterGenesis | src/stories/stories.service.ts:21-166 | The same holds for the first turn on a freshly created story. |

## Left out

- Persistence order and I/O: saves, the `remove` of the pruned tail, and the
  `createdAt` ordering of the relation are folded into one resulting store.
  Nodes are kept in creation order.
- Concurrency: two turns on one story interleaving between the prune and the
  append is not modelled. The prune and the append are not transactional in
  the code either.
- The generator itself and the opening prompt text. The generator is a
  parameter; creation receives its reply. The `gender` argument only feeds
  that prompt and has no column, so it is dropped.
- `getStory` is `FindOwned`, and the controllers, authentication and session
  handling are outside the model.
- `getMyStories`: a plain projection query with a log line.
- A generator reply that is not a string (`data.response` undefined) and a
  rewind token that is not an integer, such as a fractional or NaN value. The
  token is an `int`, or absent.
- The `action` argument of `generateMockTurn` is unused there, so `MockTurn`
  takes only the player's text.
- Cascade deletion of a story's nodes: nodes live inside their story here, so
  removing the story removes them.
