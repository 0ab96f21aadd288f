/**
 * `buildPrompt`: a pure template over three story fields, the retained
 * nodes' texts, the action type and the player's text.
 */
module Prompt {
  import opened Text
  import opened Entities

  const Preamble: string := "You are a text-based interactive fiction engine."

  const RulesLead: string :=
    "\n\nRules:\n- Write in second person\n- Do NOT decide player actions\n"
    + "- Generate exactly TWO paragraphs\n- Stay consistent with prior events\n"
    + "- Never mention being an AI\n"

  const Closing: string := "Continue the story."

  /** The preamble opens on a visible character, so trimming leaves it whole. */
  lemma PreambleStarts()
    ensures |Preamble| > 0 && !IsSpace(Preamble[0])
  {
    var lead, rest := "You are ", "a text-based interactive fiction engine.";
    assert lead[0] == 'Y';
    assert Preamble == lead + rest;
  }

  /** How a template literal renders a boolean. */
  function BoolText(b: bool): string {
    if b then "true" else "false"
  }

  /** The history block: the nodes' texts joined by a blank line. */
  function History(nodes: seq<Node>): string {
    Join(Texts(nodes), "\n\n")
  }

  function GenreLine(story: Story): string {
    "- Genre: " + story.genre + "\n"
  }

  function ProtagonistLine(story: Story): string {
    "- Protagonist: " + story.protagonist + "\n"
  }

  function MatureLine(story: Story): string {
    "- Mature content allowed: " + BoolText(story.matureEnabled) + "\n"
  }

  function HistoryBlock(nodes: seq<Node>): string {
    "\n" + HistorySection(nodes)
  }

  function HistorySection(nodes: seq<Node>): string {
    "Story so far:\n" + History(nodes) + "\n\n"
  }

  function ActionBlock(action: string, text: string): string {
    "Player action:\n" + TypeLine(action) + IntentLine(text) + "\n\n"
  }

  function TypeLine(action: string): string {
    "Type: " + action + "\n"
  }

  function IntentLine(text: string): string {
    "Intent: \"" + text + "\""
  }

  /** Everything between the preamble and the closing instruction. */
  function Middle(story: Story, nodes: seq<Node>, action: string, text: string): string {
    RulesLead + GenreLine(story) + ProtagonistLine(story) + MatureLine(story)
    + HistoryBlock(nodes) + ActionBlock(action, text)
  }

  /** The template literal exactly as written, before `.trim()`. */
  function Template(story: Story, nodes: seq<Node>, action: string, text: string): string {
    "\n" + (Preamble + Middle(story, nodes, action, text) + Closing) + "\n"
  }

  /** The generation request: the filled template without its opening and closing newline. */
  function BuildPrompt(story: Story, nodes: seq<Node>, action: string, text: string): string {
    Preamble + Middle(story, nodes, action, text) + Closing
  }

  /** The prompt starts with the preamble and ends with the closing instruction, whatever the fields contain. */
  lemma PromptFrame(story: Story, nodes: seq<Node>, action: string, text: string)
    ensures var r := BuildPrompt(story, nodes, action, text);
      StartsWith(r, Preamble) && EndsWith(r, Closing)
  {
    FrameEnds(Preamble, Middle(story, nodes, action, text), Closing);
  }

  /**
   * `buildPrompt` trims the template literal; that trim strips exactly the
   * opening and closing newline and nothing of the interpolated fields,
   * because the preamble starts and the closing instruction ends with a
   * non-space character.
   */
  lemma TrimOnlyStripsFrame(story: Story, nodes: seq<Node>, action: string, text: string)
    ensures Trim(Template(story, nodes, action, text)) == BuildPrompt(story, nodes, action, text)
    ensures "\n" + BuildPrompt(story, nodes, action, text) + "\n" == Template(story, nodes, action, text)
  {
    PreambleStarts();
    TrimFramed(Preamble, Middle(story, nodes, action, text), Closing);
  }

  /** What the middle of the template contains, the prompt contains. */
  lemma MiddleInPrompt(story: Story, nodes: seq<Node>, action: string, text: string, t: string)
    requires Contains(Middle(story, nodes, action, text), t)
    ensures Contains(BuildPrompt(story, nodes, action, text), t)
  {
    ContainsInRight(Preamble, Middle(story, nodes, action, text), t);
    ContainsInLeft(Preamble + Middle(story, nodes, action, text), Closing, t);
  }

  /** The prompt carries the three story fields, each in its own labelled rule line. */
  lemma PromptCarriesStory(story: Story, nodes: seq<Node>, action: string, text: string)
    ensures var r := BuildPrompt(story, nodes, action, text);
      && Contains(r, "- Genre: " + story.genre + "\n")
      && Contains(r, "- Protagonist: " + story.protagonist + "\n")
      && Contains(r, "- Mature content allowed: " + BoolText(story.matureEnabled) + "\n")
  {
    var g, p, m := GenreLine(story), ProtagonistLine(story), MatureLine(story);
    var h, a := HistoryBlock(nodes), ActionBlock(action, text);
    ContainsSelf(g);
    ContainsInRight(RulesLead, g, g);
    ContainsInLeft(RulesLead + g, p, g);
    ContainsSelf(p);
    ContainsInRight(RulesLead + g, p, p);
    ContainsSelf(m);
    ContainsInRight(RulesLead + g + p, m, m);
    ContainsInLeft(RulesLead + g + p, m, g);
    ContainsInLeft(RulesLead + g + p, m, p);
    forall t | t in [g, p, m] ensures Contains(Middle(story, nodes, action, text), t) {
      ContainsInLeft(RulesLead + g + p + m, h, t);
      ContainsInLeft(RulesLead + g + p + m + h, a, t);
    }
    MiddleInPrompt(story, nodes, action, text, g);
    MiddleInPrompt(story, nodes, action, text, p);
    MiddleInPrompt(story, nodes, action, text, m);
  }

  /**
   * The prompt carries the history (the nodes' texts joined by blank
   * lines, in order) under "Story so far:", then the action type and the
   * player's text quoted after "Intent: ".
   */
  lemma PromptCarriesTurn(story: Story, nodes: seq<Node>, action: string, text: string)
    ensures var r := BuildPrompt(story, nodes, action, text);
      && Contains(r, "Story so far:\n" + Join(Texts(nodes), "\n\n") + "\n\n")
      && Contains(r, "Type: " + action + "\n")
      && Contains(r, "Intent: \"" + text + "\"")
  {
    var lead := RulesLead + GenreLine(story) + ProtagonistLine(story) + MatureLine(story);
    var hs, ty, it := HistorySection(nodes), TypeLine(action), IntentLine(text);
    var a := ActionBlock(action, text);
    ContainsSelf(hs);
    ContainsInRight("\n", hs, hs);
    ContainsInRight(lead, HistoryBlock(nodes), hs);
    ContainsInLeft(lead + HistoryBlock(nodes), a, hs);
    ContainsSelf(ty);
    ContainsInRight("Player action:\n", ty, ty);
    ContainsInLeft("Player action:\n" + ty, it, ty);
    ContainsInLeft("Player action:\n" + ty + it, "\n\n", ty);
    ContainsSelf(it);
    ContainsInRight("Player action:\n" + ty, it, it);
    ContainsInLeft("Player action:\n" + ty + it, "\n\n", it);
    ContainsInRight(lead + HistoryBlock(nodes), a, ty);
    ContainsInRight(lead + HistoryBlock(nodes), a, it);
    MiddleInPrompt(story, nodes, action, text, hs);
    MiddleInPrompt(story, nodes, action, text, ty);
    MiddleInPrompt(story, nodes, action, text, it);
  }

  /** In the history, a later node's text follows the earlier ones after a blank line. */
  lemma HistoryExtends(nodes: seq<Node>, n: Node)
    requires |nodes| >= 1
    ensures History(nodes + [n]) == History(nodes) + "\n\n" + n.generatedText
  {
    assert Texts(nodes + [n]) == Texts(nodes) + [n.generatedText];
    JoinAppend(Texts(nodes), n.generatedText, "\n\n");
  }

  /**
   * The prompt reads the nodes only through their texts and the story
   * only through genre, protagonist and mature flag: inputs that agree on
   * those give the same prompt.
   */
  lemma PromptDependsOnTextsOnly(s1: Story, n1: seq<Node>, s2: Story, n2: seq<Node>,
                                 action: string, text: string)
    requires s1.genre == s2.genre && s1.protagonist == s2.protagonist
    requires s1.matureEnabled == s2.matureEnabled
    requires |n1| == |n2|
    requires forall i :: 0 <= i < |n1| ==> n1[i].generatedText == n2[i].generatedText
    ensures BuildPrompt(s1, n1, action, text) == BuildPrompt(s2, n2, action, text)
  {
    assert Texts(n1) == Texts(n2);
    assert HistoryBlock(n1) == HistoryBlock(n2);
    assert GenreLine(s1) == GenreLine(s2);
    assert ProtagonistLine(s1) == ProtagonistLine(s2);
    assert MatureLine(s1) == MatureLine(s2);
    assert Template(s1, n1, action, text) == Template(s2, n2, action, text);
  }
}
