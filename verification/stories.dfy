/**
 * The turn engine of the story service: story creation with its genesis
 * node, the ownership-filtered lookup, rewind resolution, pruning, the
 * generator call with its fallback, paragraph parsing, addressing and the
 * append of the new node; and story deletion.
 */
module Stories {
  import opened Wrappers
  import opened Text
  import opened Paragraphs
  import opened Entities
  import opened Prompt

  /** The errors the service surfaces; generator failures are never among them. */
  datatype ServiceError = StoryNotFound | InvalidRewindToken

  /** What story creation returns, with the store after both saves. */
  datatype Created = Created(store: Store, storyId: string, openingParagraphs: seq<string>)

  /** What a turn returns, with the store after the prune and the append. */
  datatype Turn = Turn(store: Store, paragraphs: seq<string>, tokenStart: int, tokenEnd: int)

  const GenesisAction: string := "SYSTEM"

  /** The opening text used when the generator throws during creation. */
  function OpeningFallback(protagonist: string): string {
    OpeningLead(protagonist) + "\n\n" + OpeningTail
  }

  /** The fallback opening's first sentence. */
  function OpeningLead(protagonist: string): string {
    protagonist + " stands at the edge of something unknown."
  }

  /** The fallback opening's second sentence. */
  const OpeningTail: string := "The world waits."

  /** `generateMockTurn`: the two paragraphs substituted when the generator throws. */
  function MockTurn(text: string): seq<string> {
    ["You decide to " + text + ".", "The world responds in its own way."]
  }

  /** The mock paragraphs joined by a blank line, as the turn substitutes them. */
  function TurnFallback(text: string): string {
    Join(MockTurn(text), "\n\n")
  }

  /** A node's text: the kept paragraphs joined by one space. */
  function NodeText(paragraphs: seq<string>): string {
    Join(paragraphs, " ")
  }

  // ------------------------------------------------------------- lookup

  /** The story with this id, provided the caller owns it. */
  function FindOwned(store: Store, storyId: string, userId: string): (r: Option<Story>)
    ensures r.Some? <==> storyId in store && store[storyId].userId == userId
    ensures r.Some? ==> r.value == store[storyId]
  {
    if storyId in store && store[storyId].userId == userId then Some(store[storyId]) else None
  }

  // ------------------------------------------------------------- rewind

  function FindFrom(nodes: seq<Node>, t: int, from: nat): (r: Option<nat>)
    requires from <= |nodes|
    ensures r.Some? ==> from <= r.value < |nodes| && Covers(nodes[r.value], t)
                        && forall j :: from <= j < r.value ==> !Covers(nodes[j], t)
    ensures r.None? ==> forall j :: from <= j < |nodes| ==> !Covers(nodes[j], t)
    decreases |nodes| - from
  {
    if from == |nodes| then None
    else if Covers(nodes[from], t) then Some(from)
    else FindFrom(nodes, t, from + 1)
  }

  /**
   * `findIndex` over the nodes in order: the first node whose inclusive
   * range contains `t`, or none when no range does.
   */
  function ResolveRewind(nodes: seq<Node>, t: int): (r: Option<nat>)
    ensures r.Some? ==> r.value < |nodes| && Covers(nodes[r.value], t)
                        && forall j :: 0 <= j < r.value ==> !Covers(nodes[j], t)
    ensures r.None? <==> forall j :: 0 <= j < |nodes| ==> !Covers(nodes[j], t)
  {
    FindFrom(nodes, t, 0)
  }

  /** A token on the boundary shared by two nodes resolves to the earlier one. */
  lemma BoundaryPicksEarlier(nodes: seq<Node>, k: nat, t: int)
    requires k + 1 < |nodes|
    requires nodes[k].tokenEnd == t && nodes[k + 1].tokenStart == t
    requires nodes[k].tokenStart <= t
    requires forall j :: 0 <= j < k ==> !Covers(nodes[j], t)
    ensures ResolveRewind(nodes, t) == Some(k)
    ensures ResolveRewind(nodes, t) != Some(k + 1)
  {
  }

  /** Retained prefix and deleted tail around the resolved index. */
  function Prune(nodes: seq<Node>, k: nat): (r: (seq<Node>, seq<Node>))
    requires k < |nodes|
    ensures r.0 + r.1 == nodes
    ensures |r.0| == k + 1 && r.0[k] == nodes[k]
  {
    (nodes[..k + 1], nodes[k + 1..])
  }

  // --------------------------------------------------------------- turn

  /**
   * `submitTurn`. `generate` answers a prompt, `None` standing for a throw;
   * `newId` is the id the database gives the new node. A missing token
   * compares false with every bound and so is rejected like one outside
   * every range. Failures leave the store as it was.
   */
  function SubmitTurn(store: Store, storyId: string, userId: string, action: string, text: string,
                      rewindToken: Option<int>, generate: string -> Option<string>, newId: string)
    : (r: Result<Turn, ServiceError>)
    ensures r == Failure(StoryNotFound) <==> !(storyId in store && store[storyId].userId == userId)
    ensures r == Failure(InvalidRewindToken) <==>
              && storyId in store && store[storyId].userId == userId
              && (rewindToken.None?
                  || forall j :: 0 <= j < |store[storyId].nodes| ==>
                       !Covers(store[storyId].nodes[j], rewindToken.value))
  {
    match FindOwned(store, storyId, userId)
    case None => Failure(StoryNotFound)
    case Some(story) =>
      var found := if rewindToken.Some? then ResolveRewind(story.nodes, rewindToken.value) else None;
      match found
      case None => Failure(InvalidRewindToken)
      case Some(k) => Success(Advance(store, storyId, story, k, action, text, rewindToken.value, generate, newId))
  }

  /**
   * The successful turn on `story` resolved to node `k`: prune after `k`,
   * ask for the paragraphs, append the new node and save the story.
   */
  function Advance(store: Store, storyId: string, story: Story, k: nat, action: string, text: string,
                   t: int, generate: string -> Option<string>, newId: string): Turn
    requires k < |story.nodes|
  {
    var (validNodes, _) := Prune(story.nodes, k);
    var paragraphs := Reply(story, validNodes, action, text, generate);
    var newNode := NewNode(validNodes[|validNodes| - 1], newId, action, text, paragraphs, t);
    Turn(store[storyId := story.(nodes := validNodes + [newNode])], paragraphs,
         newNode.tokenStart, newNode.tokenEnd)
  }

  /**
   * The paragraphs of a turn: the generator's answer to the prompt built
   * from the retained nodes, or the mock turn when it throws, parsed.
   */
  function Reply(story: Story, validNodes: seq<Node>, action: string, text: string,
                 generate: string -> Option<string>): (r: seq<string>)
    ensures |r| <= MaxParagraphs
    ensures forall j :: 0 <= j < |r| ==> r[j] != [] && IsTrimmed(r[j])
    ensures generate(BuildPrompt(story, validNodes, action, text)).Some? ==>
              r == ParseParagraphs(generate(BuildPrompt(story, validNodes, action, text)).value)
    ensures generate(BuildPrompt(story, validNodes, action, text)).None? ==>
              r == ParseParagraphs(TurnFallback(text))
  {
    ParseParagraphs(generate(BuildPrompt(story, validNodes, action, text)).GetOr(TurnFallback(text)))
  }

  /**
   * The node a turn appends after `parent`: it starts at the rewind token
   * and spans as many addresses as its text has regex-split pieces.
   */
  function NewNode(parent: Node, newId: string, action: string, text: string,
                   paragraphs: seq<string>, t: int): (n: Node)
    ensures n.tokenStart == t < n.tokenEnd
    ensures n.parentNodeId == Some(parent.id)
  {
    var generatedText := NodeText(paragraphs);
    Node(newId, Some(parent.id), action, text, generatedText, t, t + TokenCount(generatedText))
  }

  /** An owned story and a token first covered by node `k`: the turn advances from node `k`. */
  lemma TurnResolves(store: Store, storyId: string, userId: string, action: string,
                     text: string, t: int, generate: string -> Option<string>,
                     newId: string, k: nat)
    requires storyId in store && store[storyId].userId == userId
    requires k < |store[storyId].nodes| && Covers(store[storyId].nodes[k], t)
    requires forall j :: 0 <= j < k ==> !Covers(store[storyId].nodes[j], t)
    ensures SubmitTurn(store, storyId, userId, action, text, Some(t), generate, newId)
            == Success(Advance(store, storyId, store[storyId], k, action, text, t, generate, newId))
  {
    assert ResolveRewind(store[storyId].nodes, t) == Some(k);
  }

  /**
   * A successful turn at token `t` resolved to node `k` leaves the story's
   * nodes as `nodes[..k+1]` plus one new node that starts at `t`, spans
   * at least one address, hangs off node `k` and records the action and
   * the player's text; every other story is untouched.
   */
  lemma TurnAppendsAfterRewindPoint(store: Store, storyId: string, userId: string, action: string,
                                    text: string, t: int, generate: string -> Option<string>,
                                    newId: string, k: nat)
    requires storyId in store && store[storyId].userId == userId
    requires k < |store[storyId].nodes| && Covers(store[storyId].nodes[k], t)
    requires forall j :: 0 <= j < k ==> !Covers(store[storyId].nodes[j], t)
    ensures var r := SubmitTurn(store, storyId, userId, action, text, Some(t), generate, newId);
      var nodes := store[storyId].nodes;
      && r.Success?
      && storyId in r.value.store
      && var after := r.value.store[storyId];
      && |after.nodes| == k + 2
      && after.nodes[..k + 1] == nodes[..k + 1]
      && after == store[storyId].(nodes := after.nodes)
      && var n := after.nodes[k + 1];
      && n.id == newId
      && n.parentNodeId == Some(nodes[k].id)
      && n.actionType == action && n.userInput == text
      && n.generatedText == NodeText(r.value.paragraphs)
      && n.tokenStart == r.value.tokenStart == t
      && n.tokenEnd == r.value.tokenEnd == t + TokenCount(n.generatedText)
      && n.tokenStart < n.tokenEnd
      && Covers(nodes[k], n.tokenStart)
      && (forall id :: id in r.value.store <==> id in store)
      && forall id :: id in store && id != storyId ==> r.value.store[id] == store[id]
  {
    TurnResolves(store, storyId, userId, action, text, t, generate, newId, k);
    var nodes := store[storyId].nodes;
    var after := Advance(store, storyId, store[storyId], k, action, text, t, generate, newId).store[storyId];
    assert after.nodes[..k + 1] == nodes[..k + 1];
  }

  /**
   * The turn reads nothing of the deleted tail: two stories that agree on
   * everything but the nodes after the rewind point give the same turn and
   * the same resulting story.
   */
  lemma TurnIgnoresDeletedTail(s1: Store, s2: Store, storyId: string, userId: string, action: string,
                               text: string, t: int, generate: string -> Option<string>,
                               newId: string, k: nat)
    requires storyId in s1 && storyId in s2 && s1[storyId].userId == userId
    requires s2[storyId] == s1[storyId].(nodes := s2[storyId].nodes)
    requires k < |s1[storyId].nodes| && k < |s2[storyId].nodes|
    requires s1[storyId].nodes[..k + 1] == s2[storyId].nodes[..k + 1]
    requires Covers(s1[storyId].nodes[k], t)
    requires forall j :: 0 <= j < k ==> !Covers(s1[storyId].nodes[j], t)
    ensures var r1 := SubmitTurn(s1, storyId, userId, action, text, Some(t), generate, newId);
      var r2 := SubmitTurn(s2, storyId, userId, action, text, Some(t), generate, newId);
      && r1.Success? && r2.Success?
      && storyId in r1.value.store && storyId in r2.value.store
      && r1.value.paragraphs == r2.value.paragraphs
      && r1.value.tokenStart == r2.value.tokenStart
      && r1.value.tokenEnd == r2.value.tokenEnd
      && r1.value.store[storyId] == r2.value.store[storyId]
  {
    var n1, n2 := s1[storyId].nodes, s2[storyId].nodes;
    forall j | 0 <= j <= k ensures n1[j] == n2[j] {
      assert n1[..k + 1][j] == n2[..k + 1][j];
    }
    assert ResolveRewind(n1, t) == Some(k);
    assert ResolveRewind(n2, t) == Some(k);
    assert BuildPrompt(s1[storyId], n1[..k + 1], action, text)
        == BuildPrompt(s2[storyId], n2[..k + 1], action, text);
  }

  /**
   * A throwing generator never fails the turn: the mock reply always parses
   * to two paragraphs, and to exactly the two mock sentences when the
   * player's text has no line feed.
   */
  lemma GeneratorFailureAbsorbed(store: Store, storyId: string, userId: string, action: string,
                                 text: string, t: int, generate: string -> Option<string>,
                                 newId: string, k: nat)
    requires storyId in store && store[storyId].userId == userId
    requires k < |store[storyId].nodes| && Covers(store[storyId].nodes[k], t)
    requires forall j :: 0 <= j < k ==> !Covers(store[storyId].nodes[j], t)
    requires generate(BuildPrompt(store[storyId], store[storyId].nodes[..k + 1], action, text)).None?
    ensures var r := SubmitTurn(store, storyId, userId, action, text, Some(t), generate, newId);
      && r.Success?
      && |r.value.paragraphs| == 2
      && ('\n' !in text ==> r.value.paragraphs == MockTurn(text))
  {
    TurnResolves(store, storyId, userId, action, text, t, generate, newId, k);
    MockTurnParses(text);
  }

  lemma LineNotBlank(s: string, i: nat)
    requires i < |s| && !IsSpace(s[i])
    ensures Trim(s) != []
  {
    TrimEmptyIffBlank(s);
  }

  /** The lines of `q`, a blank line, then `w` as the last line. */
  lemma LinesOfPair(q: string, w: string)
    requires '\n' !in w
    ensures Lines(q + "\n\n" + w) == Split(q, '\n') + ["", w]
  {
    assert "\n\n" == "\n" + "\n";
    ConcatAssoc(q, "\n", "\n", w);
    assert "\n" + w == [] + "\n" + w;
    SplitAppend(q, "\n" + w, '\n');
    SplitAppend([], w, '\n');
    SplitNoSeparator(w, '\n');
  }

  /** The last line, `w`, is not blank. */
  lemma PairLastLine(raw: string, q: string, w: string)
    requires |w| > 0 && !IsSpace(w[0])
    requires Lines(raw) == Split(q, '\n') + ["", w]
    ensures Trim(Lines(raw)[|Lines(raw)| - 1]) != []
  {
    LineNotBlank(w, 0);
  }

  /** The last line of `q` is not blank when `q` ends in a non-space. */
  lemma PairFirstLine(raw: string, q: string, w: string)
    requires |q| > 0 && !IsSpace(q[|q| - 1])
    requires Lines(raw) == Split(q, '\n') + ["", w]
    ensures Trim(Lines(raw)[|Split(q, '\n')| - 1]) != []
  {
    var qs := Split(q, '\n');
    SplitLastField(q, '\n');
    var f := qs[|qs| - 1];
    LineNotBlank(f, |f| - 1);
    assert Lines(raw)[|qs| - 1] == f;
  }

  lemma PairCount(raw: string, q: string, w: string)
    requires Lines(raw) == Split(q, '\n') + ["", w]
    requires Trim(Lines(raw)[|Lines(raw)| - 1]) != []
    requires Trim(Lines(raw)[|Split(q, '\n')| - 1]) != []
    ensures |ParseParagraphs(raw)| == 2
  {
    TwoNonBlankLines(raw, |Split(q, '\n')| - 1, |Lines(raw)| - 1);
  }

  /** Lines shaped like `q`, a blank line and `w`, with both ends non-blank, give two paragraphs. */
  lemma PairTwoParagraphs(raw: string, q: string, w: string)
    requires |q| > 0 && !IsSpace(q[|q| - 1])
    requires |w| > 0 && !IsSpace(w[0])
    requires Lines(raw) == Split(q, '\n') + ["", w]
    ensures |ParseParagraphs(raw)| == 2
  {
    PairLastLine(raw, q, w);
    PairFirstLine(raw, q, w);
    PairCount(raw, q, w);
  }

  /** ... and when `q` is a single line, they are `q` and `w` trimmed. */
  lemma PairSingleLines(raw: string, q: string, w: string)
    requires |q| > 0 && !IsSpace(q[|q| - 1]) && '\n' !in q
    requires |w| > 0 && !IsSpace(w[0])
    requires Lines(raw) == Split(q, '\n') + ["", w]
    ensures ParseParagraphs(raw) == [Trim(q), Trim(w)]
  {
    SplitNoSeparator(q, '\n');
    assert Lines(raw) == [q, "", w];
    LineNotBlank(q, |q| - 1);
    LineNotBlank(w, 0);
    TwoLinesParagraphs(raw, q, w);
  }

  /**
   * Two lines separated by a blank line, the second without a line feed:
   * parsing keeps two paragraphs, and exactly the two trimmed lines when
   * the first has no line feed either.
   */
  lemma BlankSeparatedPair(q: string, w: string)
    requires |q| > 0 && !IsSpace(q[|q| - 1])
    requires |w| > 0 && !IsSpace(w[0]) && '\n' !in w
    ensures |ParseParagraphs(q + "\n\n" + w)| == 2
    ensures '\n' !in q ==> ParseParagraphs(q + "\n\n" + w) == [Trim(q), Trim(w)]
  {
    LinesOfPair(q, w);
    PairTwoParagraphs(q + "\n\n" + w, q, w);
    if '\n' !in q {
      PairSingleLines(q + "\n\n" + w, q, w);
    }
  }

  lemma MockFirstEnds(text: string)
    ensures var p1 := MockTurn(text)[0];
      |p1| > 0 && !IsSpace(p1[|p1| - 1]) && ('\n' !in text ==> '\n' !in p1 && Trim(p1) == p1)
  {
    var p1 := MockTurn(text)[0];
    assert p1[|p1| - 1] == '.';
    if '\n' !in text {
      assert '\n' !in p1;
      assert p1[0] == 'Y';
      TrimIdentity(p1);
    }
  }

  lemma MockSecondLine(text: string)
    ensures var p2 := MockTurn(text)[1];
      |p2| > 0 && !IsSpace(p2[0]) && '\n' !in p2 && Trim(p2) == p2
  {
    var p2 := MockTurn(text)[1];
    assert !IsSpace(p2[0]) && '\n' !in p2;
    TrimIdentity(p2);
  }

  lemma MockTurnShape(text: string)
    ensures TurnFallback(text) == MockTurn(text)[0] + "\n\n" + MockTurn(text)[1]
  {
    JoinPair(MockTurn(text)[0], MockTurn(text)[1], "\n\n");
  }

  /** The mock reply parses to two paragraphs, the mock pair itself when `text` has no line feed. */
  lemma MockTurnParses(text: string)
    ensures |ParseParagraphs(TurnFallback(text))| == 2
    ensures '\n' !in text ==> ParseParagraphs(TurnFallback(text)) == MockTurn(text)
  {
    MockTurnShape(text);
    MockFirstEnds(text);
    MockSecondLine(text);
    BlankSeparatedPair(MockTurn(text)[0], MockTurn(text)[1]);
    assert MockTurn(text) == [MockTurn(text)[0], MockTurn(text)[1]];
  }

  /** The words of a node's text and its address length. */
  lemma AddressLength(raw: string)
    ensures var text := NodeText(ParseParagraphs(raw));
      && TokenCount(text) >= 1
      && (ParseParagraphs(raw) == [] ==> text == [] && TokenCount(text) == 1)
      && (ParseParagraphs(raw) != [] ==> text != [] && TokenCount(text) == WordCount(text))
  {
    JoinTrimmed(ParseParagraphs(raw));
    TokenCountIsWordCount(NodeText(ParseParagraphs(raw)));
  }

  // ----------------------------------------------------------- creation

  /**
   * `createStory`: a new story whose only node is the genesis node built
   * from the generator's `reply` (`None` when it threw), starting at
   * address 0. `storyId` and `nodeId` are the ids the database assigns.
   */
  function CreateStory(store: Store, storyId: string, nodeId: string, userId: string, genre: string,
                       protagonist: string, matureEnabled: bool, reply: Option<string>)
    : (c: Created)
    requires storyId !in store
    ensures c.storyId == storyId
    ensures forall id :: id in c.store <==> id in store || id == storyId
    ensures forall id :: id in store ==> c.store[id] == store[id]
    ensures var s := c.store[storyId];
      && s.id == storyId && s.userId == userId && s.genre == genre
      && s.protagonist == protagonist && s.matureEnabled == matureEnabled
      && |s.nodes| == 1
  {
    var paragraphs := Opening(protagonist, reply);
    Created(store[storyId := NewStory(storyId, userId, genre, protagonist, matureEnabled, nodeId, paragraphs)],
            storyId, paragraphs)
  }

  /** A fresh story whose only node is the genesis node holding `paragraphs`. */
  function NewStory(storyId: string, userId: string, genre: string, protagonist: string,
                    matureEnabled: bool, nodeId: string, paragraphs: seq<string>): (s: Story)
    ensures s.id == storyId && WellFormed(s)
  {
    Story(storyId, userId, genre, protagonist, matureEnabled, [Genesis(nodeId, paragraphs)])
  }

  /** The opening paragraphs: the generator's reply, or the fallback opening when it threw, parsed. */
  function Opening(protagonist: string, reply: Option<string>): (r: seq<string>)
    ensures |r| <= MaxParagraphs
    ensures forall j :: 0 <= j < |r| ==> r[j] != [] && IsTrimmed(r[j])
    ensures reply.Some? ==> r == ParseParagraphs(reply.value)
    ensures reply.None? ==> r == ParseParagraphs(OpeningFallback(protagonist))
  {
    ParseParagraphs(reply.GetOr(OpeningFallback(protagonist)))
  }

  /** The genesis node holding the opening paragraphs, from address 0. */
  function Genesis(nodeId: string, paragraphs: seq<string>): (n: Node)
    ensures n.tokenStart == 0 < n.tokenEnd
  {
    var generatedText := NodeText(paragraphs);
    Node(nodeId, None, GenesisAction, "", generatedText, 0, TokenCount(generatedText))
  }

  /**
   * The genesis node: a SYSTEM node with no input and no parent, holding
   * the opening paragraphs and covering `[0, words]` with at least one
   * address.
   */
  lemma GenesisNodeShape(store: Store, storyId: string, nodeId: string, userId: string, genre: string,
                    protagonist: string, matureEnabled: bool, reply: Option<string>)
    requires storyId !in store
    ensures var c := CreateStory(store, storyId, nodeId, userId, genre, protagonist, matureEnabled, reply);
      var g := c.store[storyId].nodes[0];
      && g.id == nodeId && g.actionType == GenesisAction && g.userInput == ""
      && g.parentNodeId == None
      && g.generatedText == NodeText(c.openingParagraphs)
      && |c.openingParagraphs| <= 2
      && g.tokenStart == 0 && g.tokenEnd >= 1
      && (c.openingParagraphs != [] ==> g.tokenEnd == WordCount(g.generatedText))
  {
    AddressLength(reply.GetOr(OpeningFallback(protagonist)));
  }

  lemma OpeningSentenceEnds(protagonist: string)
    ensures var q := OpeningLead(protagonist);
      |q| > 0 && !IsSpace(q[|q| - 1])
  {
    var q := OpeningLead(protagonist);
    assert q[|q| - 1] == '.';
  }

  lemma OpeningTailLine()
    ensures var w := OpeningTail;
      |w| > 0 && !IsSpace(w[0]) && '\n' !in w && Trim(w) == w
  {
    var w := OpeningTail;
    assert !IsSpace(w[0]) && '\n' !in w;
    TrimIdentity(w);
  }

  lemma OpeningFallbackCount(protagonist: string)
    ensures |ParseParagraphs(OpeningFallback(protagonist))| == 2
  {
    OpeningSentenceEnds(protagonist);
    OpeningTailLine();
    BlankSeparatedPair(OpeningLead(protagonist), OpeningTail);
  }

  lemma OpeningFallbackLines(protagonist: string)
    requires '\n' !in protagonist
    ensures ParseParagraphs(OpeningFallback(protagonist))
              == [Trim(OpeningLead(protagonist)), Trim(OpeningTail)]
  {
    OpeningSentenceEnds(protagonist);
    OpeningTailLine();
    assert '\n' !in OpeningLead(protagonist);
    BlankSeparatedPair(OpeningLead(protagonist), OpeningTail);
  }

  /**
   * When the generator throws during creation the opening always has two
   * paragraphs; with a one-line protagonist they are the fallback's two
   * sentences.
   */
  lemma OpeningFallbackParses(protagonist: string)
    ensures |ParseParagraphs(OpeningFallback(protagonist))| == 2
    ensures '\n' !in protagonist ==>
              ParseParagraphs(OpeningFallback(protagonist))
              == [Trim(OpeningLead(protagonist)), OpeningTail]
  {
    OpeningFallbackCount(protagonist);
    if '\n' !in protagonist {
      OpeningFallbackLines(protagonist);
      OpeningTailLine();
    }
  }

  /**
   * Creation when the generator threw: the story opens with two
   * paragraphs, the fallback's two sentences for a one-line protagonist.
   */
  lemma CreateWithoutReply(store: Store, storyId: string, nodeId: string, userId: string, genre: string,
                           protagonist: string, matureEnabled: bool)
    requires storyId !in store
    ensures var c := CreateStory(store, storyId, nodeId, userId, genre, protagonist, matureEnabled, None);
      && |c.openingParagraphs| == 2
      && ('\n' !in protagonist ==> c.openingParagraphs == [Trim(OpeningLead(protagonist)), OpeningTail])
  {
    OpeningFallbackParses(protagonist);
  }

  // ----------------------------------------------------------- deletion

  /** `deleteStory`: removes an owned story (its nodes go with it). */
  function DeleteStory(store: Store, storyId: string, userId: string): (r: Result<Store, ServiceError>)
    ensures r.Failure? <==> !(storyId in store && store[storyId].userId == userId)
    ensures r.Failure? ==> r.error == StoryNotFound
    ensures r.Success? ==> r.value.Keys == store.Keys - {storyId}
    ensures r.Success? ==> forall id :: id in r.value ==> id in store && r.value[id] == store[id]
  {
    match FindOwned(store, storyId, userId)
    case None => Failure(StoryNotFound)
    case Some(_) => Success(store - {storyId})
  }

  // ---------------------------------------------------------- invariant

  /**
   * What creation and turns keep true of every story: it starts with the
   * SYSTEM genesis node at address 0, every node spans at least one
   * address, and every later node's parent is the node before it and its
   * start lies within that node's range.
   */
  predicate WellFormed(s: Story) {
    && |s.nodes| >= 1
    && s.nodes[0].tokenStart == 0
    && s.nodes[0].parentNodeId.None?
    && s.nodes[0].actionType == GenesisAction
    && (forall i :: 0 <= i < |s.nodes| ==> s.nodes[i].tokenStart < s.nodes[i].tokenEnd)
    && (forall i :: 1 <= i < |s.nodes| ==> s.nodes[i].parentNodeId == Some(s.nodes[i - 1].id))
    && (forall i :: 1 <= i < |s.nodes| ==> Covers(s.nodes[i - 1], s.nodes[i].tokenStart))
  }

  predicate ValidStore(store: Store) {
    forall id :: id in store ==> store[id].id == id && WellFormed(store[id])
  }

  /** Replacing or adding one well-formed story under its own id keeps the store valid. */
  lemma PutKeepsStoreValid(store: Store, id: string, s: Story)
    requires ValidStore(store) && s.id == id && WellFormed(s)
    ensures ValidStore(store[id := s])
  {
  }

  /** Cutting after node `k` and appending a node that hangs off it keeps a story well formed. */
  lemma AppendKeepsWellFormed(s: Story, k: nat, n: Node)
    requires WellFormed(s) && k < |s.nodes|
    requires n.parentNodeId == Some(s.nodes[k].id)
    requires n.tokenStart < n.tokenEnd && Covers(s.nodes[k], n.tokenStart)
    ensures WellFormed(s.(nodes := s.nodes[..k + 1] + [n]))
  {
  }

  lemma CreateKeepsStoreValid(store: Store, storyId: string, nodeId: string, userId: string,
                              genre: string, protagonist: string, matureEnabled: bool,
                              reply: Option<string>)
    requires storyId !in store && ValidStore(store)
    ensures ValidStore(CreateStory(store, storyId, nodeId, userId, genre, protagonist,
                                   matureEnabled, reply).store)
  {
    var paragraphs := Opening(protagonist, reply);
    PutKeepsStoreValid(store, storyId, NewStory(storyId, userId, genre, protagonist, matureEnabled, nodeId, paragraphs));
  }

  lemma TurnKeepsStoreValid(store: Store, storyId: string, userId: string, action: string,
                            text: string, rewindToken: Option<int>,
                            generate: string -> Option<string>, newId: string)
    requires ValidStore(store)
    ensures var r := SubmitTurn(store, storyId, userId, action, text, rewindToken, generate, newId);
            r.Success? ==> ValidStore(r.value.store)
  {
    var r := SubmitTurn(store, storyId, userId, action, text, rewindToken, generate, newId);
    if r.Success? {
      var t := rewindToken.value;
      var k := ResolveRewind(store[storyId].nodes, t).value;
      TurnAppendsAfterRewindPoint(store, storyId, userId, action, text, t, generate, newId, k);
      var nodes := store[storyId].nodes;
      var after := r.value.store[storyId];
      assert after.nodes == nodes[..k + 1] + [after.nodes[k + 1]];
      AppendKeepsWellFormed(store[storyId], k, after.nodes[k + 1]);
      PutKeepsStoreValid(store, storyId, after);
      assert r.value.store == store[storyId := after];
    }
  }

  /** In a well-formed story no node covers a negative token, so it is always rejected. */
  lemma NegativeTokenRejected(s: Story, t: int)
    requires WellFormed(s) && t < 0
    ensures ResolveRewind(s.nodes, t) == None
  {
    StartsNonNegative(s, |s.nodes| - 1);
  }

  lemma {:induction false} StartsNonNegative(s: Story, i: nat)
    requires WellFormed(s) && i < |s.nodes|
    ensures forall j :: 0 <= j <= i ==> s.nodes[j].tokenStart >= 0
  {
    if i > 0 {
      StartsNonNegative(s, i - 1);
      assert Covers(s.nodes[i - 1], s.nodes[i].tokenStart);
    }
  }

  /**
   * A turn on a story that holds only its genesis node, rewound to that
   * node's end: it resolves to the genesis node, and the story then has two
   * nodes, the new one starting where the genesis node ends.
   */
  lemma TurnOnGenesisOnly(store: Store, storyId: string, userId: string, action: string,
                          text: string, generate: string -> Option<string>, newId: string)
    requires storyId in store && store[storyId].userId == userId
    requires WellFormed(store[storyId]) && |store[storyId].nodes| == 1
    ensures var g := store[storyId].nodes[0];
      var r := SubmitTurn(store, storyId, userId, action, text, Some(g.tokenEnd), generate, newId);
      && r.Success?
      && storyId in r.value.store
      && |r.value.store[storyId].nodes| == 2
      && r.value.store[storyId].nodes[0] == g
      && r.value.tokenStart == g.tokenEnd < r.value.tokenEnd
  {
    var g := store[storyId].nodes[0];
    TurnAppendsAfterRewindPoint(store, storyId, userId, action, text, g.tokenEnd, generate, newId, 0);
  }

  /** The first turn after `createStory`, rewound to the genesis node's end. */
  lemma FirstTurnAfterGenesis(store: Store, storyId: string, nodeId: string, userId: string,
                              genre: string, protagonist: string, matureEnabled: bool,
                              reply: Option<string>, action: string, text: string,
                              generate: string -> Option<string>, newId: string, c: Created)
    requires storyId !in store
    requires c == CreateStory(store, storyId, nodeId, userId, genre, protagonist, matureEnabled, reply)
    ensures storyId in c.store
    ensures var g := c.store[storyId].nodes[0];
      var r := SubmitTurn(c.store, storyId, userId, action, text, Some(g.tokenEnd), generate, newId);
      && r.Success?
      && storyId in r.value.store
      && |r.value.store[storyId].nodes| == 2
      && r.value.store[storyId].nodes[0] == g
      && r.value.tokenStart == g.tokenEnd < r.value.tokenEnd
  {
    GenesisNodeShape(store, storyId, nodeId, userId, genre, protagonist, matureEnabled, reply);
    TurnOnGenesisOnly(c.store, storyId, userId, action, text, generate, newId);
  }
}
