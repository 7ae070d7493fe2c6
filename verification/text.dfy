/** String helpers with JavaScript's meaning: `toLowerCase`, `includes`,
    `trim`, `split(',')` and `join(', ')`, plus the comma-list parse the
    profile and job forms share. */
module Text {
  import Seqs
  import opened Wrappers

  /** `toLowerCase` on one character, restricted to the ASCII letters. */
  function LowerChar(c: char): char {
    if 'A' <= c <= 'Z' then (c as int + 32) as char else c
  }

  /** `toLowerCase` on a string (ASCII letters only). */
  function Lower(s: string): (r: string)
    ensures |r| == |s|
    ensures forall i :: 0 <= i < |s| ==> r[i] == LowerChar(s[i])
  {
    seq(|s|, i requires 0 <= i < |s| => LowerChar(s[i]))
  }

  /** Lowering twice is lowering once. */
  lemma {:induction false} LowerIdempotent(s: string)
    ensures Lower(Lower(s)) == Lower(s)
  {
  }

  /** A string without capital letters is its own lowercase. */
  lemma {:induction false} LowerOfLowercase(s: string)
    requires forall i :: 0 <= i < |s| ==> !('A' <= s[i] <= 'Z')
    ensures Lower(s) == s
  {
  }

  /** `hay.includes(needle)`: `needle` occurs as a contiguous piece of `hay`. */
  predicate Includes(hay: string, needle: string) {
    exists i :: 0 <= i <= |hay| - |needle| && OccursAt(hay, needle, i)
  }

  /** `needle` occurs in `hay` starting at index `i`. */
  predicate OccursAt(hay: string, needle: string, i: int) {
    0 <= i && i + |needle| <= |hay| && hay[i..i + |needle|] == needle
  }

  /** JavaScript's `length` of a string: UTF-16 code units, so a character
      outside the Basic Multilingual Plane counts twice (a surrogate pair). */
  function Utf16Length(s: string): (n: nat)
    ensures |s| <= n <= 2 * |s|
    decreases |s|
  {
    if |s| == 0 then 0
    else (if s[0] as int > 0xFFFF then 2 else 1) + Utf16Length(s[1..])
  }

  /** The UTF-16 length equals the character count exactly when no
      character needs a surrogate pair. */
  lemma {:induction false} Utf16LengthIsLength(s: string)
    ensures Utf16Length(s) == |s| <==> forall i :: 0 <= i < |s| ==> s[i] as int <= 0xFFFF
    decreases |s|
  {
    if |s| > 0 {
      Utf16LengthIsLength(s[1..]);
      assert forall i :: 1 <= i < |s| ==> s[i] == s[1..][i - 1];
    }
  }

  /** The characters `trim` removes: ECMAScript WhiteSpace (tab, vertical tab,
      form feed, space, no-break space, the Unicode space separators and the
      byte order mark) and LineTerminator (LF, CR, U+2028, U+2029). */
  predicate IsSpace(c: char) {
    || ('\t' <= c <= '\r')
    || c == ' ' || c == '\U{00A0}' || c == '\U{1680}'
    || ('\U{2000}' <= c <= '\U{200A}')
    || c == '\U{2028}' || c == '\U{2029}' || c == '\U{202F}' || c == '\U{205F}'
    || c == '\U{3000}' || c == '\U{FEFF}'
  }

  /** Every character of `s` is whitespace. */
  predicate AllSpace(s: string) {
    forall i :: 0 <= i < |s| ==> IsSpace(s[i])
  }

  /** `s` has no whitespace at either end. */
  predicate Trimmed(s: string) {
    |s| == 0 || (!IsSpace(s[0]) && !IsSpace(s[|s| - 1]))
  }

  /** The first index at or after `k` that does not hold whitespace, or `|s|`. */
  function SkipSpace(s: string, k: nat): (e: nat)
    requires k <= |s|
    ensures k <= e <= |s|
    ensures forall i :: k <= i < e ==> IsSpace(s[i])
    ensures e == |s| || !IsSpace(s[e])
    decreases |s| - k
  {
    if k < |s| && IsSpace(s[k]) then SkipSpace(s, k + 1) else k
  }

  /** The least index `b` in `lo..k` such that `s[b..k]` is all whitespace. */
  function SkipSpaceBack(s: string, lo: nat, k: nat): (b: nat)
    requires lo <= k <= |s|
    ensures lo <= b <= k
    ensures forall i :: b <= i < k ==> IsSpace(s[i])
    ensures b == lo || !IsSpace(s[b - 1])
    decreases k
  {
    if k > lo && IsSpace(s[k - 1]) then SkipSpaceBack(s, lo, k - 1) else k
  }

  /** `String.prototype.trim`: `s` without its leading and trailing whitespace. */
  function Trim(s: string): (r: string)
    ensures Trimmed(r)
    ensures forall c :: c in r ==> c in s
    ensures AllSpace(s) <==> r == ""
    ensures exists i, j :: Framed(s, i, j) && r == s[i..j]
  {
    var a := SkipSpace(s, 0);
    var b := SkipSpaceBack(s, a, |s|);
    assert AllSpace(s) ==> a == |s|;
    assert a == b ==> AllSpace(s);
    assert forall k :: 0 <= k < a ==> s[..a][k] == s[k];
    assert forall k :: 0 <= k < |s| - b ==> s[b..][k] == s[b + k];
    assert Framed(s, a, b);
    s[a..b]
  }

  /** A non-empty piece cut from `s` by removing only whitespace, and with no
      whitespace left at either end, is what `Trim` returns: the framing
      pins the result down. */
  lemma {:induction false} TrimIsUnique(s: string, i: int, j: int)
    requires Framed(s, i, j) && Trimmed(s[i..j]) && i < j
    ensures Trim(s) == s[i..j]
  {
    var a := SkipSpace(s, 0);
    var b := SkipSpaceBack(s, a, |s|);
    assert s[i..j][0] == s[i] && s[i..j][j - i - 1] == s[j - 1];
    assert forall k :: 0 <= k < i ==> s[..i][k] == s[k];
    assert forall k :: 0 <= k < |s| - j ==> s[j..][k] == s[j + k];
    assert i == a;
    assert j == b;
  }

  /** `s[i..j]` is `s` with only whitespace cut from either end. */
  predicate Framed(s: string, i: int, j: int) {
    0 <= i <= j <= |s| && AllSpace(s[..i]) && AllSpace(s[j..])
  }

  /** `SkipSpace` stops at the first character that is not whitespace. */
  lemma {:induction false} SkipSpaceStops(s: string, k: nat, j: nat)
    requires k <= j <= |s|
    requires forall i :: k <= i < j ==> IsSpace(s[i])
    requires j == |s| || !IsSpace(s[j])
    ensures SkipSpace(s, k) == j
    decreases j - k
  {
    if k < j {
      SkipSpaceStops(s, k + 1, j);
    }
  }

  /** A trimmed string comes back from `trim` unchanged. */
  lemma {:induction false} TrimOfTrimmed(s: string)
    requires Trimmed(s)
    ensures Trim(s) == s
  {
    if |s| > 0 {
      SkipSpaceStops(s, 0, 0);
    }
  }

  /** Whitespace in front of a trimmed, non-empty string is all `trim` removes. */
  lemma {:induction false} TrimAfterSpace(pre: string, x: string)
    requires AllSpace(pre) && Trimmed(x) && x != ""
    ensures Trim(pre + x) == x
  {
    var s := pre + x;
    assert forall i :: 0 <= i < |pre| ==> IsSpace(s[i]);
    assert s[|pre|] == x[0];
    SkipSpaceStops(s, 0, |pre|);
    assert s[|s| - 1] == x[|x| - 1];
    assert s[|pre|..|s|] == x;
  }

  /** `s.split(sep)` for a one-character separator: the pieces between the
      separators, so `k` separators give `k + 1` pieces ("" gives [""]). */
  function Split(s: string, sep: char): (r: seq<string>)
    ensures |r| >= 1
    ensures forall i :: 0 <= i < |r| ==> sep !in r[i]
    decreases |s|
  {
    if |s| == 0 then [""]
    else if s[0] == sep then [""] + Split(s[1..], sep)
    else
      var t := Split(s[1..], sep);
      [[s[0]] + t[0]] + t[1..]
  }

  /** A piece without the separator is not split. */
  lemma {:induction false} SplitNone(x: string, sep: char)
    requires sep !in x
    ensures Split(x, sep) == [x]
    decreases |x|
  {
    if |x| > 0 {
      SplitNone(x[1..], sep);
      assert [x[0]] + x[1..] == x;
    }
  }

  /** Splitting at the first separator: the piece before it, then the rest's pieces. */
  lemma {:induction false} SplitAt(x: string, sep: char, rest: string)
    requires sep !in x
    ensures Split(x + [sep] + rest, sep) == [x] + Split(rest, sep)
    decreases |x|
  {
    if |x| == 0 {
      assert x + [sep] + rest == [sep] + rest;
      assert ([sep] + rest)[1..] == rest;
    } else {
      assert (x + [sep] + rest)[1..] == x[1..] + [sep] + rest;
      SplitAt(x[1..], sep, rest);
      assert [x[0]] + x[1..] == x;
    }
  }

  /** `xs.join(sep)`. */
  function Join(xs: seq<string>, sep: string): string
    decreases |xs|
  {
    if |xs| == 0 then ""
    else if |xs| == 1 then xs[0]
    else xs[0] + sep + Join(xs[1..], sep)
  }

  /** Joining the pieces with the separator gives the text back. */
  lemma {:induction false} JoinSplit(s: string, sep: char)
    ensures Join(Split(s, sep), [sep]) == s
    decreases |s|
  {
    if |s| > 0 {
      var t := Split(s[1..], sep);
      JoinSplit(s[1..], sep);
      if s[0] == sep {
        assert ([""] + t)[1..] == t;
      } else {
        var r := [[s[0]] + t[0]] + t[1..];
        assert r[1..] == t[1..];
        if |t| >= 2 {
          assert Join(t, [sep]) == t[0] + [sep] + Join(t[1..], [sep]);
        }
      }
    }
  }

  /** Trims every piece and drops the pieces that end up empty:
      `.map(t => t.trim()).filter(t => t)`. */
  function TrimAndDropEmpty(pieces: seq<string>): (r: seq<string>)
    ensures |r| <= |pieces|
    ensures forall i :: 0 <= i < |r| ==> r[i] != "" && Trimmed(r[i])
    decreases |pieces|
  {
    if |pieces| == 0 then []
    else
      var t := Trim(pieces[0]);
      (if t == "" then [] else [t]) + TrimAndDropEmpty(pieces[1..])
  }

  function TrimAll(pieces: seq<string>): (r: seq<string>)
    ensures |r| == |pieces|
    ensures forall i :: 0 <= i < |pieces| ==> r[i] == Trim(pieces[i])
  {
    seq(|pieces|, i requires 0 <= i < |pieces| => Trim(pieces[i]))
  }

  function NonEmpty(t: string): bool {
    t != ""
  }

  /** The parse keeps exactly the trimmed pieces that are not empty, in order. */
  lemma {:induction false} TrimAndDropIsFilter(pieces: seq<string>)
    ensures TrimAndDropEmpty(pieces) == Seqs.Filter(TrimAll(pieces), NonEmpty)
    decreases |pieces|
  {
    if |pieces| > 0 {
      var t := TrimAll(pieces);
      var rest := pieces[1..];
      TrimAndDropIsFilter(rest);
      assert t[1..] == TrimAll(rest);
      var head := Trim(pieces[0]);
      assert t[0] == head;
      assert Seqs.Filter(t, NonEmpty) == (if head == "" then [] else [head]) + Seqs.Filter(t[1..], NonEmpty);
      assert TrimAndDropEmpty(pieces) == (if head == "" then [] else [head]) + TrimAndDropEmpty(rest);
    }
  }

  /** An item that survives a parse unchanged: non-empty, trimmed, no comma. */
  predicate ListItem(x: string) {
    x != "" && Trimmed(x) && ',' !in x
  }

  /** The form parse `s.split(',').map(t => t.trim()).filter(t => t)`. */
  function ParseList(s: string): (r: seq<string>)
    ensures forall i :: 0 <= i < |r| ==> ListItem(r[i])
  {
    var pieces := Split(s, ',');
    var r := TrimAndDropEmpty(pieces);
    TrimmedPiecesHaveNoComma(pieces);
    r
  }

  lemma {:induction false} TrimmedPiecesHaveNoComma(pieces: seq<string>)
    requires forall i :: 0 <= i < |pieces| ==> ',' !in pieces[i]
    ensures forall i :: 0 <= i < |TrimAndDropEmpty(pieces)| ==> ',' !in TrimAndDropEmpty(pieces)[i]
    decreases |pieces|
  {
    if |pieces| > 0 {
      TrimmedPiecesHaveNoComma(pieces[1..]);
    }
  }

  /** The form initialiser `xs.join(', ')`. */
  function JoinList(xs: seq<string>): string {
    Join(xs, ", ")
  }

  /** Input made only of commas and whitespace parses to no items. */
  lemma {:induction false} ParseBlank(s: string)
    requires forall i :: 0 <= i < |s| ==> s[i] == ',' || IsSpace(s[i])
    ensures ParseList(s) == []
  {
    SplitBlank(s);
    BlankPiecesDrop(Split(s, ','));
  }

  lemma {:induction false} SplitBlank(s: string)
    requires forall i :: 0 <= i < |s| ==> s[i] == ',' || IsSpace(s[i])
    ensures forall i :: 0 <= i < |Split(s, ',')| ==> AllSpace(Split(s, ',')[i])
    decreases |s|
  {
    if |s| > 0 {
      SplitBlank(s[1..]);
    }
  }

  lemma {:induction false} BlankPiecesDrop(pieces: seq<string>)
    requires forall i :: 0 <= i < |pieces| ==> AllSpace(pieces[i])
    ensures TrimAndDropEmpty(pieces) == []
    decreases |pieces|
  {
    if |pieces| > 0 {
      BlankPiecesDrop(pieces[1..]);
    }
  }

  /** Round trip of the forms: joining well-formed items with ", " and
      parsing the text back gives the same items. */
  lemma {:induction false} ParseJoin(xs: seq<string>)
    requires forall i :: 0 <= i < |xs| ==> ListItem(xs[i])
    ensures ParseList(JoinList(xs)) == xs
  {
    if |xs| == 0 {
      assert Split("", ',') == [""];
    } else {
      ParseJoinAfter("", xs);
      assert "" + Join(xs, ", ") == Join(xs, ", ");
    }
  }

  lemma {:induction false} ParseJoinAfter(pre: string, xs: seq<string>)
    requires AllSpace(pre) && |xs| > 0
    requires forall i :: 0 <= i < |xs| ==> ListItem(xs[i])
    ensures TrimAndDropEmpty(Split(pre + Join(xs, ", "), ',')) == xs
    decreases |xs|
  {
    if |xs| == 1 {
      ParseJoinOne(pre, xs[0]);
      assert [xs[0]] == xs;
    } else {
      assert forall i :: 0 <= i < |xs[1..]| ==> ListItem(xs[1..][i]) by {
        forall i | 0 <= i < |xs[1..]| ensures ListItem(xs[1..][i]) {
          assert xs[1..][i] == xs[i + 1];
        }
      }
      ParseJoinAfter(" ", xs[1..]);
      ParseJoinStep(pre, xs);
    }
  }

  /** One item after some whitespace parses back to that item. */
  lemma {:induction false} ParseJoinOne(pre: string, x: string)
    requires AllSpace(pre) && ListItem(x)
    ensures TrimAndDropEmpty(Split(pre + x, ',')) == [x]
  {
    SpaceHasNoComma(pre);
    TrimAfterSpace(pre, x);
    NoCommaConcat(pre, x);
    SplitNone(pre + x, ',');
    DropStep(pre + x, [], [x]);
    assert [pre + x] + [] == [pre + x];
  }

  /** The first item of a longer list parses back, followed by the rest's parse. */
  lemma {:induction false} ParseJoinStep(pre: string, xs: seq<string>)
    requires AllSpace(pre) && |xs| >= 2 && ListItem(xs[0])
    requires TrimAndDropEmpty(Split(" " + Join(xs[1..], ", "), ',')) == xs[1..]
    ensures TrimAndDropEmpty(Split(pre + Join(xs, ", "), ',')) == xs
  {
    var tail := Join(xs[1..], ", ");
    SpaceHasNoComma(pre);
    TrimAfterSpace(pre, xs[0]);
    NoCommaConcat(pre, xs[0]);
    JoinStep(pre, xs);
    SplitAt(pre + xs[0], ',', " " + tail);
    DropStep(pre + xs[0], Split(" " + tail, ','), xs);
  }

  lemma {:induction false} NoCommaConcat(x: string, y: string)
    requires ',' !in x && ',' !in y
    ensures ',' !in x + y
  {
  }

  lemma {:induction false} SpaceHasNoComma(pre: string)
    requires AllSpace(pre)
    ensures ',' !in pre
  {
  }

  lemma {:induction false} JoinStep(pre: string, xs: seq<string>)
    requires |xs| >= 2
    ensures pre + Join(xs, ", ") == (pre + xs[0]) + [','] + (" " + Join(xs[1..], ", "))
  {
  }

  lemma {:induction false} DropStep(first: string, rest: seq<string>, xs: seq<string>)
    requires |xs| > 0 && Trim(first) == xs[0] && xs[0] != ""
    requires TrimAndDropEmpty(rest) == xs[1..]
    ensures TrimAndDropEmpty([first] + rest) == xs
  {
    assert ([first] + rest)[0] == first;
    assert ([first] + rest)[1..] == rest;
    assert xs == [xs[0]] + xs[1..];
  }

  /** `x || fallback` for a string field. */
  function OrElse(x: string, fallback: string): string {
    if x == "" then fallback else x
  }

  /** `xs?.join(', ') || ''`. */
  function ListText(xs: Option<seq<string>>): (r: string)
    ensures xs.None? ==> r == ""
  {
    match xs
    case None => ""
    case Some(items) => JoinList(items)
  }

  /** A present list whose items all survive a parse unchanged. */
  predicate WellFormedList(xs: Option<seq<string>>) {
    xs.Some? && forall i :: 0 <= i < |xs.value| ==> ListItem(xs.value[i])
  }
}
