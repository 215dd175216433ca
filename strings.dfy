/** The few JavaScript string operations the core relies on, written out. */
module Strings {

  /** `ASCII` lower-casing; `String.prototype.toLowerCase` on A-Z. */
  function LowerChar(c: char): char {
    if 'A' <= c <= 'Z' then (c as int + 32) as char else c
  }

  function Lower(s: string): (r: string)
    ensures |r| == |s|
    ensures forall i :: 0 <= i < |s| ==> r[i] == LowerChar(s[i])
  {
    seq(|s|, i requires 0 <= i < |s| => LowerChar(s[i]))
  }

  lemma LowerKeepsLowerCase(s: string)
    requires forall i :: 0 <= i < |s| ==> !('A' <= s[i] <= 'Z')
    ensures Lower(s) == s
  {
  }

  /** `s.endsWith(suffix)`. */
  predicate EndsWith(s: string, suffix: string) {
    |suffix| <= |s| && s[|s| - |suffix|..] == suffix
  }

  /** `s.includes(part)`. */
  predicate Contains(s: string, part: string)
    decreases |s|
  {
    part <= s || (s != [] && Contains(s[1..], part))
  }

  lemma {:induction false} ContainsAt(s: string, part: string, k: nat)
    requires k + |part| <= |s| && s[k..k + |part|] == part
    ensures Contains(s, part)
    decreases k
  {
    if k == 0 {
      assert part <= s;
    } else {
      assert s[1..][k - 1..k - 1 + |part|] == s[k..k + |part|];
      ContainsAt(s[1..], part, k - 1);
    }
  }

  /** `s.replace(/[...]/g, "")` and `s.replaceAll(c, "")`: every character of
      `drop` removed. */
  function RemoveChars(s: string, drop: set<char>): (r: string)
    ensures forall c :: c in r ==> c !in drop
    ensures forall c :: c !in drop ==> multiset(r)[c] == multiset(s)[c]
  {
    if s == [] then []
    else
      var rest := RemoveChars(s[..|s| - 1], drop);
      assert s == s[..|s| - 1] + [s[|s| - 1]];
      if s[|s| - 1] in drop then rest else rest + [s[|s| - 1]]
  }

  lemma {:induction false} RemoveCharsIdempotent(s: string, drop: set<char>)
    ensures RemoveChars(RemoveChars(s, drop), drop) == RemoveChars(s, drop)
  {
    RemoveCharsNothingToDrop(RemoveChars(s, drop), drop);
  }

  lemma {:induction false} RemoveCharsNothingToDrop(s: string, drop: set<char>)
    requires forall c :: c in s ==> c !in drop
    ensures RemoveChars(s, drop) == s
  {
    if s != [] {
      var front, last := s[..|s| - 1], s[|s| - 1];
      assert s == front + [last];
      forall c | c in front
        ensures c !in drop
      {
        assert c in s;
      }
      RemoveCharsNothingToDrop(front, drop);
      assert last !in drop;
    }
  }

  /** `s.replaceAll(pattern, replacement)`: left to right, non-overlapping. */
  function ReplaceAll(s: string, pattern: string, replacement: string): (r: string)
    requires pattern != ""
    ensures s != [] && replacement != [] ==> r != []
    ensures !Contains(s, pattern) ==> r == s
    decreases |s|
  {
    if |s| < |pattern| then s
    else if pattern <= s then replacement + ReplaceAll(s[|pattern|..], pattern, replacement)
    else [s[0]] + ReplaceAll(s[1..], pattern, replacement)
  }

  /** The pattern at the front, then text without it: only the front is replaced. */
  lemma ReplaceAllAfterPattern(pattern: string, tail: string, replacement: string)
    requires pattern != "" && !Contains(tail, pattern)
    ensures ReplaceAll(pattern + tail, pattern, replacement) == replacement + tail
  {
    var s := pattern + tail;
    assert pattern <= s;
    assert s[|pattern|..] == tail;
  }

  /** Replacing a pattern by itself changes nothing. */
  lemma {:induction false} ReplaceAllBySelf(s: string, pattern: string)
    requires pattern != ""
    ensures ReplaceAll(s, pattern, pattern) == s
    decreases |s|
  {
    if |s| < |pattern| {
    } else if pattern <= s {
      ReplaceAllBySelf(s[|pattern|..], pattern);
      assert s == pattern + s[|pattern|..];
    } else {
      ReplaceAllBySelf(s[1..], pattern);
      assert s == [s[0]] + s[1..];
    }
  }

  /** Every character of a part found in `s` occurs in `s`. */
  lemma {:induction false} ContainsKeepsChars(s: string, part: string, c: char)
    requires Contains(s, part) && c in part
    ensures c in s
    decreases |s|
  {
    if !(part <= s) {
      ContainsKeepsChars(s[1..], part, c);
    }
  }

  /** Replacing a character by another leaves none of it. */
  lemma {:induction false} ReplaceCharRemovesIt(s: string, c: char, d: char)
    requires c != d
    ensures c !in ReplaceAll(s, [c], [d])
    decreases |s|
  {
    if |s| >= 1 {
      ReplaceCharRemovesIt(s[1..], c, d);
    }
  }

  /** `s.split(sep)` for a one-character separator: at least one piece, none
      holding the separator. */
  function Split(s: string, sep: char): (pieces: seq<string>)
    ensures |pieces| >= 1
    ensures forall i :: 0 <= i < |pieces| ==> sep !in pieces[i]
  {
    if s == [] then [""]
    else
      var rest := Split(s[1..], sep);
      if s[0] == sep then [""] + rest
      else [[s[0]] + rest[0]] + rest[1..]
  }

  /** `pieces.join(sep)`. */
  function Join(pieces: seq<string>, sep: string): string {
    if pieces == [] then ""
    else if |pieces| == 1 then pieces[0]
    else pieces[0] + sep + Join(pieces[1..], sep)
  }

  /** Splitting on a character and joining with that character gives the text back. */
  lemma {:induction false} JoinSplit(s: string, sep: char)
    ensures Join(Split(s, sep), [sep]) == s
  {
    if s != [] {
      JoinSplit(s[1..], sep);
      var rest := Split(s[1..], sep);
      if s[0] == sep {
        assert s == [sep] + s[1..];
      } else if |rest| == 1 {
        assert s == [s[0]] + s[1..];
      } else {
        assert Join(rest, [sep]) == rest[0] + [sep] + Join(rest[1..], [sep]);
        assert s == [s[0]] + s[1..];
      }
    }
  }

  /** Text without the separator is one piece. */
  lemma {:induction false} SplitWithoutSeparator(s: string, sep: char)
    requires sep !in s
    ensures Split(s, sep) == [s]
  {
    if s != [] {
      SplitWithoutSeparator(s[1..], sep);
      assert [s[0]] + s[1..] == s;
    }
  }

  lemma {:induction false} JoinSnoc(pieces: seq<string>, piece: string, sep: string)
    requires pieces != []
    ensures Join(pieces + [piece], sep) == Join(pieces, sep) + sep + piece
  {
    if |pieces| > 1 {
      assert (pieces + [piece])[1..] == pieces[1..] + [piece];
      JoinSnoc(pieces[1..], piece, sep);
    } else {
      assert (pieces + [piece])[1..] == [piece];
    }
  }

  /** `s.split(sep).pop()`: the text after the last separator, or all of `s`
      when it has none. */
  function LastPiece(s: string, sep: char): (r: string)
    ensures sep !in r
  {
    var pieces := Split(s, sep);
    pieces[|pieces| - 1]
  }

  /** The last piece is what follows the last separator. */
  lemma LastPieceFollowsLastSeparator(s: string, sep: char)
    ensures sep !in s ==> LastPiece(s, sep) == s
    ensures sep in s ==> exists front :: s == front + [sep] + LastPiece(s, sep)
  {
    if sep !in s {
      SplitWithoutSeparator(s, sep);
    } else {
      var pieces := Split(s, sep);
      JoinSplit(s, sep);
      assert |pieces| > 1;
      var front := pieces[..|pieces| - 1];
      assert pieces == front + [pieces[|pieces| - 1]];
      JoinSnoc(front, pieces[|pieces| - 1], [sep]);
      assert s == Join(front, [sep]) + [sep] + LastPiece(s, sep);
    }
  }

  /** Lines each followed by a newline. */
  function Unlines(lines: seq<string>): string {
    if lines == [] then "" else lines[0] + "\n" + Unlines(lines[1..])
  }

  lemma {:induction false} UnlinesAppend(lines: seq<string>, line: string)
    ensures Unlines(lines + [line]) == Unlines(lines) + line + "\n"
  {
    if lines != [] {
      assert (lines + [line])[1..] == lines[1..] + [line];
      UnlinesAppend(lines[1..], line);
    } else {
      assert Unlines([line]) == line + "\n" + Unlines([]);
    }
  }

  /** Appending line `k` to text ending in the first `k` lines. */
  lemma UnlinesPrefixStep(prefix: string, lines: seq<string>, k: nat)
    requires k < |lines|
    ensures prefix + Unlines(lines[..k]) + lines[k] + "\n" == prefix + Unlines(lines[..k + 1])
  {
    assert lines[..k + 1] == lines[..k] + [lines[k]];
    UnlinesAppend(lines[..k], lines[k]);
  }

  /** A piece without the separator, then the separator: one more piece in front. */
  lemma {:induction false} SplitAfterPiece(piece: string, sep: char, rest: string)
    requires sep !in piece
    ensures Split(piece + [sep] + rest, sep) == [piece] + Split(rest, sep)
    decreases |piece|
  {
    var s := piece + [sep] + rest;
    if piece == [] {
      assert s == [sep] + rest;
      assert s[1..] == rest;
    } else {
      assert s[1..] == piece[1..] + [sep] + rest;
      SplitAfterPiece(piece[1..], sep, rest);
      assert [piece[0]] + piece[1..] == piece;
    }
  }

  /** Newline-terminated lines split back into those lines and a final empty piece. */
  lemma {:induction false} SplitUnlines(lines: seq<string>)
    requires forall i :: 0 <= i < |lines| ==> '\n' !in lines[i]
    ensures Split(Unlines(lines), '\n') == lines + [""]
  {
    if lines != [] {
      SplitUnlines(lines[1..]);
      SplitAfterPiece(lines[0], '\n', Unlines(lines[1..]));
      assert lines == [lines[0]] + lines[1..];
    }
  }

  /** The characters `String.prototype.trim` removes. */
  predicate IsJsWhitespace(c: char) {
    c in {'\t', '\n', '\U{000B}', '\U{000C}', '\r', ' ', '\U{00A0}', '\U{1680}',
          '\U{2028}', '\U{2029}', '\U{202F}', '\U{205F}', '\U{3000}', '\U{FEFF}'}
    || ('\U{2000}' <= c <= '\U{200A}')
  }

  /** `s.trim() === ""`. */
  predicate IsBlank(s: string) {
    forall i :: 0 <= i < |s| ==> IsJsWhitespace(s[i])
  }

  function DigitChar(d: nat): char
    requires d < 10
  {
    "0123456789"[d]
  }

  /** The decimal rendering of a number in a template literal. */
  function NatToString(n: nat): (r: string)
    ensures r != []
    ensures forall i :: 0 <= i < |r| ==> '0' <= r[i] <= '9'
    decreases n
  {
    if n < 10 then [DigitChar(n)] else NatToString(n / 10) + [DigitChar(n % 10)]
  }
}
