/**
 * The paragraph parse shared by story creation and turns:
 * `raw.split('\n').map(p => p.trim()).filter(Boolean).slice(0, 2)`.
 */
module Paragraphs {
  import opened Text

  /** At most this many paragraphs are kept from one generation. */
  const MaxParagraphs: nat := 2

  function Min(a: int, b: int): int {
    if a <= b then a else b
  }

  /** The lines of a generated text, split at line feeds only. */
  function Lines(raw: string): seq<string> {
    Split(raw, '\n')
  }

  /** `xs.map(p => p.trim())`. */
  function TrimEach(xs: seq<string>): (r: seq<string>)
    ensures |r| == |xs|
    ensures forall i :: 0 <= i < |xs| ==> r[i] == Trim(xs[i])
  {
    seq(|xs|, i requires 0 <= i < |xs| => Trim(xs[i]))
  }

  /** How many of `xs` are non-empty strings. */
  function CountNonEmpty(xs: seq<string>): nat {
    if |xs| == 0 then 0
    else CountNonEmpty(xs[..|xs| - 1]) + (if xs[|xs| - 1] == [] then 0 else 1)
  }

  /** `xs.filter(Boolean)` on strings: the empty string is the only falsy one. */
  function DropEmpty(xs: seq<string>): (r: seq<string>)
    ensures |r| == CountNonEmpty(xs)
    ensures forall j :: 0 <= j < |r| ==> r[j] != []
  {
    if |xs| == 0 then []
    else DropEmpty(xs[..|xs| - 1]) + (if xs[|xs| - 1] == [] then [] else [xs[|xs| - 1]])
  }

  /** `xs[i]` is the `j`-th (from 0) non-empty element of `xs`. */
  ghost predicate IsNth(xs: seq<string>, i: int, j: nat) {
    0 <= i < |xs| && xs[i] != [] && CountNonEmpty(xs[..i]) == j
  }

  /** The `j`-th element kept by the filter is the `j`-th non-empty element. */
  lemma {:induction false} DropEmptyPicksNth(xs: seq<string>, j: int)
    requires 0 <= j < |DropEmpty(xs)|
    ensures exists i :: IsNth(xs, i, j) && DropEmpty(xs)[j] == xs[i]
    decreases |xs|
  {
    var n := |xs| - 1;
    var init := xs[..n];
    assert xs[..n][..n] == init;
    if j < |DropEmpty(init)| {
      DropEmptyPicksNth(init, j);
      var i :| IsNth(init, i, j) && DropEmpty(init)[j] == init[i];
      assert init[..i] == xs[..i];
      assert IsNth(xs, i, j);
    } else {
      assert IsNth(xs, n, j);
    }
  }

  /**
   * The paragraphs of a generated text: at most two, each trimmed and
   * non-empty, as many as there are non-blank lines up to that bound.
   */
  function ParseParagraphs(raw: string): (r: seq<string>)
    ensures |r| == Min(MaxParagraphs, CountNonEmpty(TrimEach(Lines(raw))))
    ensures forall j :: 0 <= j < |r| ==> r[j] != [] && IsTrimmed(r[j])
  {
    var kept := DropEmpty(TrimEach(Lines(raw)));
    ParagraphsAreTrimmedLines(raw);
    kept[..Min(MaxParagraphs, |kept|)]
  }

  /** Every element the filter keeps from the trimmed lines is trimmed. */
  lemma ParagraphsAreTrimmedLines(raw: string)
    ensures forall j :: 0 <= j < |DropEmpty(TrimEach(Lines(raw)))| ==>
              IsTrimmed(DropEmpty(TrimEach(Lines(raw)))[j])
  {
    var t := TrimEach(Lines(raw));
    forall j | 0 <= j < |DropEmpty(t)| ensures IsTrimmed(DropEmpty(t)[j]) {
      DropEmptyPicksNth(t, j);
    }
  }

  /**
   * The `j`-th paragraph is the `j`-th line that is not blank, trimmed; so
   * the paragraphs come in the order of their lines.
   */
  lemma ParagraphIsNthLine(raw: string, j: int)
    requires 0 <= j < |ParseParagraphs(raw)|
    ensures exists i :: IsNth(TrimEach(Lines(raw)), i, j)
                        && ParseParagraphs(raw)[j] == Trim(Lines(raw)[i])
  {
    DropEmptyPicksNth(TrimEach(Lines(raw)), j);
  }

  lemma {:induction false} CountPastNonEmpty(xs: seq<string>, a: nat)
    requires a < |xs| && xs[a] != []
    ensures CountNonEmpty(xs) >= CountNonEmpty(xs[..a]) + 1
    decreases |xs|
  {
    var n := |xs| - 1;
    if a < n {
      CountPastNonEmpty(xs[..n], a);
      assert xs[..n][..a] == xs[..a];
    } else {
      assert xs[..n] == xs[..a];
    }
  }

  /** Two non-empty elements make a count of at least two. */
  lemma TwoNonEmpty(xs: seq<string>, a: nat, b: nat)
    requires a < b < |xs| && xs[a] != [] && xs[b] != []
    ensures CountNonEmpty(xs) >= 2
  {
    CountPastNonEmpty(xs, b);
    CountPastNonEmpty(xs[..b], a);
  }

  /** A text with two non-blank lines gives exactly two paragraphs. */
  lemma TwoNonBlankLines(raw: string, a: nat, b: nat)
    requires a < b < |Lines(raw)|
    requires Trim(Lines(raw)[a]) != [] && Trim(Lines(raw)[b]) != []
    ensures |ParseParagraphs(raw)| == 2
  {
    TwoNonEmpty(TrimEach(Lines(raw)), a, b);
  }

  lemma DropEmptyThree(a: string, b: string)
    requires a != [] && b != []
    ensures DropEmpty([a, [], b]) == [a, b]
  {
    assert [a, [], b][..2] == [a, []];
    assert [a, []][..1] == [a];
    assert [a][..0] == [];
    assert DropEmpty([a]) == [a];
    assert DropEmpty([a, []]) == [a];
  }

  /** Two non-blank lines around an empty one are the two paragraphs, trimmed. */
  lemma TwoLinesParagraphs(raw: string, q: string, w: string)
    requires Lines(raw) == [q, "", w] && Trim(q) != [] && Trim(w) != []
    ensures ParseParagraphs(raw) == [Trim(q), Trim(w)]
  {
    TrimEachThree(q, w);
    DropEmptyThree(Trim(q), Trim(w));
  }

  lemma TrimEachThree(q: string, w: string)
    ensures TrimEach([q, "", w]) == [Trim(q), [], Trim(w)]
  {
    assert Trim("") == [];
  }

  /** The first paragraph is the first non-blank line, trimmed. */
  lemma FirstParagraph(raw: string, a: nat)
    requires a < |Lines(raw)| && Trim(Lines(raw)[a]) != []
    requires forall i :: 0 <= i < a ==> Trim(Lines(raw)[i]) == []
    ensures |ParseParagraphs(raw)| >= 1
    ensures ParseParagraphs(raw)[0] == Trim(Lines(raw)[a])
  {
    var t := TrimEach(Lines(raw));
    CountPastNonEmpty(t, a);
    ParagraphIsNthLine(raw, 0);
    var i :| IsNth(t, i, 0) && ParseParagraphs(raw)[0] == Trim(Lines(raw)[i]);
    if i > a {
      CountPastNonEmpty(t[..i], a);
    }
  }
}
