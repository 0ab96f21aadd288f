/**
 * The JavaScript string built-ins the turn engine relies on, over strings of
 * characters: `String.prototype.trim`, `split('\n')`, `Array.prototype.join`
 * and `split(/\s+/)`. Whitespace is the ECMAScript WhiteSpace and
 * LineTerminator set, which is what both `trim` and the regex class `\s` use.
 */
module Text {

  /** ECMAScript WhiteSpace or LineTerminator code point. */
  predicate IsSpace(c: char) {
    var n := c as int;
    || (0x09 <= n <= 0x0D)
    || n == 0x20 || n == 0xA0 || n == 0x1680
    || (0x2000 <= n <= 0x200A)
    || n == 0x2028 || n == 0x2029 || n == 0x202F || n == 0x205F
    || n == 0x3000 || n == 0xFEFF
  }

  predicate AllSpace(s: string) {
    forall i :: 0 <= i < |s| ==> IsSpace(s[i])
  }

  predicate NoSpace(s: string) {
    forall i :: 0 <= i < |s| ==> !IsSpace(s[i])
  }

  /** Neither end of `s` is whitespace. */
  predicate IsTrimmed(s: string) {
    s == [] || (!IsSpace(s[0]) && !IsSpace(s[|s| - 1]))
  }

  predicate StartsWith(s: string, p: string) {
    |p| <= |s| && s[..|p|] == p
  }

  predicate EndsWith(s: string, p: string) {
    |p| <= |s| && s[|s| - |p|..] == p
  }

  /** `t` occurs somewhere inside `s`. */
  predicate Contains(s: string, t: string) {
    exists i :: 0 <= i <= |s| && StartsWith(s[i..], t)
  }

  lemma FrameEnds(a: string, b: string, c: string)
    ensures StartsWith(a + b + c, a) && EndsWith(a + b + c, c)
  {
    assert (a + b + c)[..|a|] == a;
    assert (a + b + c)[|a + b + c| - |c|..] == c;
  }

  lemma ConcatAssoc(a: string, b: string, c: string, d: string)
    ensures a + (b + c) + d == a + b + (c + d)
  {
  }

  lemma ContainsSelf(t: string)
    ensures Contains(t, t)
  {
    assert t[0..] == t;
  }

  /** An occurrence inside a part is an occurrence inside the whole. */
  lemma ContainsInLeft(x: string, y: string, t: string)
    requires Contains(x, t)
    ensures Contains(x + y, t)
  {
    var i :| 0 <= i <= |x| && StartsWith(x[i..], t);
    assert (x + y)[i..][..|t|] == x[i..][..|t|];
  }

  lemma ContainsInRight(x: string, y: string, t: string)
    requires Contains(y, t)
    ensures Contains(x + y, t)
  {
    var i :| 0 <= i <= |y| && StartsWith(y[i..], t);
    assert (x + y)[|x| + i..] == y[i..];
  }

  // ---------------------------------------------------------------- trim

  /** The end of the whitespace run that starts at `i`. */
  function SpaceRunEnd(s: string, i: nat): (j: nat)
    requires i <= |s|
    ensures i <= j <= |s|
    ensures forall k :: i <= k < j ==> IsSpace(s[k])
    ensures j == |s| || !IsSpace(s[j])
    decreases |s| - i
  {
    if i < |s| && IsSpace(s[i]) then SpaceRunEnd(s, i + 1) else i
  }

  /** The start of the whitespace run that ends at `j`. */
  function SpaceRunStart(s: string, j: nat): (i: nat)
    requires j <= |s|
    ensures i <= j
    ensures forall k :: i <= k < j ==> IsSpace(s[k])
    ensures i == 0 || !IsSpace(s[i - 1])
  {
    if j > 0 && IsSpace(s[j - 1]) then SpaceRunStart(s, j - 1) else j
  }

  /** `s` without its leading whitespace. */
  function TrimStart(s: string): (r: string)
    ensures |r| <= |s| && r == s[|s| - |r|..]
    ensures AllSpace(s[..|s| - |r|])
    ensures r == [] || !IsSpace(r[0])
  {
    s[SpaceRunEnd(s, 0)..]
  }

  /** `s` without its trailing whitespace. */
  function TrimEnd(s: string): (r: string)
    ensures |r| <= |s| && r == s[..|r|]
    ensures AllSpace(s[|r|..])
    ensures r == [] || !IsSpace(r[|r| - 1])
  {
    s[..SpaceRunStart(s, |s|)]
  }

  /** `String.prototype.trim`: neither end of the result is whitespace. */
  function Trim(s: string): (r: string)
    ensures IsTrimmed(r) && |r| <= |s|
  {
    TrimEnd(TrimStart(s))
  }

  /**
   * The trimmed string is a slice of `s` with only whitespace cut away on
   * either side.
   */
  lemma TrimIsSlice(s: string)
    ensures var r := Trim(s);
      exists a :: 0 <= a && a + |r| <= |s| && r == s[a..a + |r|]
                  && AllSpace(s[..a]) && AllSpace(s[a + |r|..])
  {
    var t := TrimStart(s);
    var r := TrimEnd(t);
    var a := |s| - |t|;
    assert s[a..] == t;
    assert s[a..a + |r|] == t[..|r|];
    assert s[a + |r|..] == t[|r|..];
  }

  lemma TrimStartSkips(pre: string, rest: string)
    requires AllSpace(pre)
    requires rest == [] || !IsSpace(rest[0])
    ensures TrimStart(pre + rest) == rest
  {
    var s := pre + rest;
    assert forall k :: 0 <= k < |pre| ==> IsSpace(s[k]);
    assert |pre| == |s| || !IsSpace(s[|pre|]);
    assert SpaceRunEnd(s, 0) == |pre|;
    assert s[|pre|..] == rest;
  }

  lemma TrimEndSkips(body: string, post: string)
    requires AllSpace(post)
    requires body == [] || !IsSpace(body[|body| - 1])
    ensures TrimEnd(body + post) == body
  {
    var s := body + post;
    assert forall k :: |body| <= k < |s| ==> IsSpace(s[k]);
    assert |body| == 0 || !IsSpace(s[|body| - 1]);
    assert SpaceRunStart(s, |s|) == |body|;
    assert s[..|body|] == body;
  }

  /** Trimming removes exactly the whitespace around a trimmed core. */
  lemma TrimSurrounded(pre: string, body: string, post: string)
    requires AllSpace(pre) && AllSpace(post)
    requires body != [] && IsTrimmed(body)
    ensures Trim(pre + body + post) == body
  {
    assert pre + body + post == pre + (body + post);
    TrimStartSkips(pre, body + post);
    TrimEndSkips(body, post);
  }

  /** Trimming a line framed by two line feeds gives back the line, when it does not start or end with whitespace. */
  lemma TrimFramed(head: string, mid: string, tail: string)
    requires |head| > 0 && !IsSpace(head[0])
    requires |tail| > 0 && !IsSpace(tail[|tail| - 1])
    ensures Trim("\n" + (head + mid + tail) + "\n") == head + mid + tail
  {
    var body := head + mid + tail;
    assert body[0] == head[0];
    assert body[|body| - 1] == tail[|tail| - 1];
    TrimSurrounded("\n", body, "\n");
  }

  /** Trimming leaves an already trimmed string alone. */
  lemma TrimIdentity(s: string)
    requires IsTrimmed(s)
    ensures Trim(s) == s
  {
    if s != [] {
      assert [] + s + [] == s;
      TrimSurrounded([], s, []);
    }
  }

  /** A line trims to the empty string exactly when it is all whitespace. */
  lemma TrimEmptyIffBlank(s: string)
    ensures Trim(s) == [] <==> AllSpace(s)
  {
    var t := TrimStart(s);
    if TrimEnd(t) == [] {
      assert t[0..] == t;
      assert s[..|s|] == s;
    }
  }

  // ------------------------------------------------------ split and join

  /**
   * `s.split(sep)` for a one-character separator: the fields between
   * separators, including empty ones at either end; `""` gives `[""]`.
   */
  function Split(s: string, sep: char): (r: seq<string>)
    ensures |r| >= 1
  {
    if |s| == 0 then [""] else Extend(Split(s[..|s| - 1], sep), s[|s| - 1], sep)
  }

  /** The fields after one more character: a separator opens a new field, anything else extends the last one. */
  function Extend(fields: seq<string>, c: char, sep: char): (r: seq<string>)
    requires |fields| >= 1
    ensures |r| >= 1
  {
    if c == sep then fields + [""]
    else fields[..|fields| - 1] + [fields[|fields| - 1] + [c]]
  }

  /** Extending touches only the last field, so it distributes over a prefix. */
  lemma ExtendAfter(left: seq<string>, right: seq<string>, c: char, sep: char)
    requires |right| >= 1
    ensures Extend(left + right, c, sep) == left + Extend(right, c, sep)
  {
    var fields := left + right;
    if c == sep {
      assert fields + [""] == left + (right + [""]);
    } else {
      var last := right[|right| - 1] + [c];
      assert fields[..|fields| - 1] == left + right[..|right| - 1];
      assert fields[..|fields| - 1] + [last] == left + (right[..|right| - 1] + [last]);
    }
  }

  /** No field contains the separator. */
  lemma {:induction false} SplitFieldsFree(s: string, sep: char)
    ensures forall i :: 0 <= i < |Split(s, sep)| ==> sep !in Split(s, sep)[i]
    decreases |s|
  {
    if |s| > 0 {
      var init := s[..|s| - 1];
      SplitFieldsFree(init, sep);
      var fields := Split(init, sep);
      if s[|s| - 1] != sep {
        assert sep !in fields[|fields| - 1] + [s[|s| - 1]];
      }
    }
  }

  /** `xs.join(sep)`: `[]` gives `""`, one element gives itself. */
  function Join(xs: seq<string>, sep: string): string {
    if |xs| == 0 then ""
    else if |xs| == 1 then xs[0]
    else Join(xs[..|xs| - 1], sep) + sep + xs[|xs| - 1]
  }

  lemma JoinPair(a: string, b: string, sep: string)
    ensures Join([a, b], sep) == a + sep + b
  {
    assert [a, b][..1] == [a];
  }

  lemma JoinAppend(xs: seq<string>, y: string, sep: string)
    requires |xs| >= 1
    ensures Join(xs + [y], sep) == Join(xs, sep) + sep + y
  {
    assert (xs + [y])[..|xs|] == xs;
  }

  lemma {:induction false} SplitNoSeparator(s: string, sep: char)
    requires sep !in s
    ensures Split(s, sep) == [s]
    decreases |s|
  {
    if |s| > 0 {
      var init := s[..|s| - 1];
      assert forall k :: 0 <= k < |init| ==> init[k] == s[k];
      SplitNoSeparator(init, sep);
      assert init + [s[|s| - 1]] == s;
    }
  }

  lemma SplitSnoc(init: string, c: char, sep: char)
    ensures Split(init + [c], sep) == Extend(Split(init, sep), c, sep)
  {
    assert (init + [c])[..|init|] == init;
  }

  /** Splitting at a separator splits the two sides independently. */
  lemma {:induction false} SplitAppend(a: string, b: string, sep: char)
    ensures Split(a + [sep] + b, sep) == Split(a, sep) + Split(b, sep)
    decreases |b|
  {
    if |b| == 0 {
      SplitSnoc(a, sep, sep);
      assert a + [sep] + b == a + [sep];
    } else {
      var init, c := b[..|b| - 1], b[|b| - 1];
      assert a + [sep] + b == (a + [sep] + init) + [c];
      assert init + [c] == b;
      SplitAppend(a, init, sep);
      SplitSnoc(a + [sep] + init, c, sep);
      SplitSnoc(init, c, sep);
      ExtendAfter(Split(a, sep), Split(init, sep), c, sep);
    }
  }

  lemma InitLast<T>(xs: seq<T>)
    requires |xs| >= 1
    ensures xs[..|xs| - 1] + [xs[|xs| - 1]] == xs
  {
  }

  lemma AppendAssoc(x: string, y: string, z: string)
    ensures x + y + z == x + (y + z)
  {
  }

  /** Joining extended fields appends the character to the joined text. */
  lemma JoinExtend(fields: seq<string>, c: char, sep: char)
    requires |fields| >= 1
    ensures Join(Extend(fields, c, sep), [sep]) == Join(fields, [sep]) + [c]
  {
    var m := |fields|;
    var y := fields[m - 1];
    if c == sep {
      JoinAppend(fields, "", [sep]);
      assert Join(fields, [sep]) + [sep] + "" == Join(fields, [sep]) + [c];
    } else if m == 1 {
      assert Extend(fields, c, sep) == [y + [c]];
    } else {
      var front := fields[..m - 1];
      InitLast(fields);
      assert Extend(fields, c, sep) == front + [y + [c]];
      JoinAppend(front, y + [c], [sep]);
      JoinAppend(front, y, [sep]);
      AppendAssoc(Join(front, [sep]) + [sep], y, [c]);
    }
  }

  /** Joining the fields with the separator gives back the string. */
  lemma {:induction false} SplitJoin(s: string, sep: char)
    ensures Join(Split(s, sep), [sep]) == s
    decreases |s|
  {
    if |s| > 0 {
      var init := s[..|s| - 1];
      SplitJoin(init, sep);
      JoinExtend(Split(init, sep), s[|s| - 1], sep);
      assert init + [s[|s| - 1]] == s;
    }
  }

  /** Splitting a join of separator-free fields gives back the fields. */
  lemma {:induction false} JoinSplit(xs: seq<string>, sep: char)
    requires |xs| >= 1
    requires forall i :: 0 <= i < |xs| ==> sep !in xs[i]
    ensures Split(Join(xs, [sep]), sep) == xs
    decreases |xs|
  {
    var n := |xs|;
    SplitNoSeparator(xs[n - 1], sep);
    if n > 1 {
      var init := xs[..n - 1];
      JoinSplit(init, sep);
      SplitAppend(Join(init, [sep]), xs[n - 1], sep);
      assert init + [xs[n - 1]] == xs;
    }
  }

  /** The first field of a string not starting with the separator starts with its first character. */
  lemma {:induction false} SplitFirstField(s: string, sep: char)
    requires |s| > 0 && s[0] != sep
    ensures |Split(s, sep)[0]| > 0 && Split(s, sep)[0][0] == s[0]
    decreases |s|
  {
    if |s| > 1 {
      var init := s[..|s| - 1];
      SplitFirstField(init, sep);
    }
  }

  /** The last field of a string not ending with the separator ends with its last character. */
  lemma SplitLastField(s: string, sep: char)
    requires |s| > 0 && s[|s| - 1] != sep
    ensures var r := Split(s, sep); var f := r[|r| - 1];
            |f| > 0 && f[|f| - 1] == s[|s| - 1]
  {
  }

  /** Joining trimmed non-empty pieces with one space gives a trimmed string, empty only for no pieces. */
  lemma {:induction false} JoinTrimmed(xs: seq<string>)
    requires forall i :: 0 <= i < |xs| ==> xs[i] != [] && IsTrimmed(xs[i])
    ensures IsTrimmed(Join(xs, " "))
    ensures Join(xs, " ") == [] <==> xs == []
    decreases |xs|
  {
    if |xs| > 1 {
      var init := xs[..|xs| - 1];
      JoinTrimmed(init);
      var front := Join(init, " ");
      var y := xs[|xs| - 1];
      assert (front + " " + y)[0] == front[0];
      assert (front + " " + y)[|front + " " + y| - 1] == y[|y| - 1];
    }
  }

  // ------------------------------------------------ whitespace-run split

  /**
   * `s.split(/\s+/)`: the pieces between maximal whitespace runs, with an
   * empty piece before a leading run and after a trailing one; `""` gives
   * `[""]`.
   */
  function WsSplit(s: string): (r: seq<string>)
    ensures |r| >= 1
  {
    if |s| == 0 then [""]
    else
      var p := WsSplit(s[..|s| - 1]);
      var c := s[|s| - 1];
      if IsSpace(c) then
        (if |s| > 1 && IsSpace(s[|s| - 2]) then p else p + [""])
      else
        p[..|p| - 1] + [p[|p| - 1] + [c]]
  }

  /** No piece of the regex split holds whitespace. */
  lemma {:induction false} WsSplitPiecesHaveNoSpace(s: string)
    ensures forall i :: 0 <= i < |WsSplit(s)| ==> NoSpace(WsSplit(s)[i])
    decreases |s|
  {
    if |s| > 0 {
      WsSplitPiecesHaveNoSpace(s[..|s| - 1]);
      var p := WsSplit(s[..|s| - 1]);
      var c := s[|s| - 1];
      if !IsSpace(c) {
        assert NoSpace(p[|p| - 1] + [c]);
      }
    }
  }

  /** `s.split(/\s+/).length`, the engine's address-space length of a text. */
  function TokenCount(s: string): (n: nat)
    ensures n >= 1
  {
    |WsSplit(s)|
  }

  /** The number of whitespace-separated words: positions where a word begins. */
  function WordCount(s: string): nat {
    if |s| == 0 then 0
    else
      WordCount(s[..|s| - 1])
      + (if !IsSpace(s[|s| - 1]) && (|s| == 1 || IsSpace(s[|s| - 2])) then 1 else 0)
  }

  lemma {:induction false} WsSplitCountsWords(s: string)
    requires |s| > 0 && !IsSpace(s[0])
    ensures |WsSplit(s)| == WordCount(s) + (if IsSpace(s[|s| - 1]) then 1 else 0)
    decreases |s|
  {
    if |s| > 1 {
      var s' := s[..|s| - 1];
      assert s'[0] == s[0];
      assert s'[|s'| - 1] == s[|s| - 2];
      WsSplitCountsWords(s');
    }
  }

  /**
   * On a non-empty text without surrounding whitespace the regex split
   * count is the number of words; on the empty text it is 1, not 0.
   */
  lemma TokenCountIsWordCount(s: string)
    requires IsTrimmed(s)
    ensures s != [] ==> TokenCount(s) == WordCount(s)
    ensures s == [] ==> TokenCount(s) == 1 && WordCount(s) == 0
  {
    if s != [] {
      WsSplitCountsWords(s);
    }
  }
}
