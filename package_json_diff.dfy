/** The hand-written positional line differ of src/lib/packageJsonMerger.ts
    (`generatePackageJsonDiff`), over the two manifests' serialised lines.

    The method works on strings as the source does. Beside it, the same scan
    is described on structured hunks (`Scan`, `Step`, `DiffHunks`) and the
    properties of the output are proved about that description. */
module PackageJsonDiff {
  import opened Strings

  /** The fixed patch preamble, with a synthetic index line. */
  const Preamble := "diff --git a/package.json b/package.json\nindex 0000000..1111111 100644\n--- a/package.json\n+++ b/package.json\n"

  /** `lines[i] || ""`: a missing line reads as empty. */
  function LineAt(lines: seq<string>, i: nat): string {
    if i < |lines| then lines[i] else ""
  }

  /** `${lines[j]}` in a template literal: a missing line prints as "undefined". */
  function PrintedLine(lines: seq<string>, j: nat): string {
    if j < |lines| then lines[j] else "undefined"
  }

  /** `Math.max(originalLines.length, upgradedLines.length)`. */
  function Width(original: seq<string>, upgraded: seq<string>): nat {
    if |original| < |upgraded| then |upgraded| else |original|
  }

  predicate Differs(original: seq<string>, upgraded: seq<string>, i: nat) {
    LineAt(original, i) != LineAt(upgraded, i)
  }

  /** The two serialisations agree line for line. */
  ghost predicate SameLines(original: seq<string>, upgraded: seq<string>) {
    forall i :: 0 <= i < Width(original, upgraded) ==> !Differs(original, upgraded, i)
  }

  // ---------------------------------------------------------------------
  // Hunks as data

  datatype DiffLine = Context(text: string) | Removed(text: string) | Added(text: string)

  /** `start` is the 0-based index printed (plus one) on both sides of the header. */
  datatype Hunk = Hunk(start: nat, lines: seq<DiffLine>)

  /** The lines emitted at a differing index: `-` for a non-empty original
      line, `+` for a non-empty upgraded line. */
  function ChangeLines(original: seq<string>, upgraded: seq<string>, i: nat): seq<DiffLine> {
    var origLine := LineAt(original, i);
    var upgLine := LineAt(upgraded, i);
    if origLine != "" && upgLine == "" then [Removed(origLine)]
    else if origLine == "" && upgLine != "" then [Added(upgLine)]
    else [Removed(origLine), Added(upgLine)]
  }

  /** Context lines for original indices `lo .. hi - 1`. */
  function ContextRange(original: seq<string>, lo: nat, hi: nat): seq<DiffLine>
    decreases hi
  {
    if hi <= lo then [] else ContextRange(original, lo, hi - 1) + [Context(PrintedLine(original, hi - 1))]
  }

  /** `Math.max(0, i - 3)`. */
  function LeadStart(i: nat): nat {
    if i >= 3 then i - 3 else 0
  }

  /** The up to three context lines a hunk opened at `i` starts with. */
  function LeadingContext(original: seq<string>, i: nat): seq<DiffLine> {
    ContextRange(original, LeadStart(i), i)
  }

  /** How many context lines follow the last `-`/`+` line. */
  function TrailingContext(lines: seq<DiffLine>): nat {
    if lines == [] then 0
    else if lines[|lines| - 1].Context? then 1 + TrailingContext(lines[..|lines| - 1])
    else 0
  }

  /** The scan's state after some indices: `start` is `hunkStart` (-1 when no
      hunk is open), `open` the open hunk's lines, `closed` the flushed hunks. */
  datatype Scan = Scan(start: int, open: seq<DiffLine>, closed: seq<Hunk>)

  predicate Consistent(st: Scan) {
    -1 <= st.start && (st.start == -1 <==> st.open == [])
  }

  /** One iteration of the `for` loop, at index `i`. */
  function Step(original: seq<string>, upgraded: seq<string>, i: nat, st: Scan): (r: Scan)
    requires Consistent(st)
    ensures Consistent(r)
  {
    if Differs(original, upgraded, i) then
      var lead := if st.open == [] && i > 0 then ContextRange(original, LeadStart(i), i) else [];
      Scan(if st.start == -1 then i else st.start, st.open + lead + ChangeLines(original, upgraded, i), st.closed)
    else if st.open != [] then
      var open := st.open + [Context(LineAt(original, i))];
      if TrailingContext(open) >= 3 then Scan(-1, [], st.closed + [Hunk(st.start, open)])
      else Scan(st.start, open, st.closed)
    else st
  }

  /** The state after indices `0 .. k - 1`. */
  function ScanTo(original: seq<string>, upgraded: seq<string>, k: nat): (st: Scan)
    ensures Consistent(st)
  {
    if k == 0 then Scan(-1, [], []) else Step(original, upgraded, k - 1, ScanTo(original, upgraded, k - 1))
  }

  lemma ScanToNext(original: seq<string>, upgraded: seq<string>, i: nat)
    ensures ScanTo(original, upgraded, i + 1) == Step(original, upgraded, i, ScanTo(original, upgraded, i))
  {
  }

  lemma StepAtDifference(original: seq<string>, upgraded: seq<string>, i: nat, st: Scan)
    requires Consistent(st) && Differs(original, upgraded, i)
    ensures Step(original, upgraded, i, st)
            == Scan(if st.start == -1 then i else st.start,
                    st.open + (if st.open == [] && i > 0 then ContextRange(original, LeadStart(i), i) else [])
                            + ChangeLines(original, upgraded, i),
                    st.closed)
  {
  }

  lemma StepAtContext(original: seq<string>, upgraded: seq<string>, i: nat, st: Scan)
    requires Consistent(st) && !Differs(original, upgraded, i) && st.open != []
    ensures var open := st.open + [Context(LineAt(original, i))];
            Step(original, upgraded, i, st)
            == if TrailingContext(open) >= 3 then Scan(-1, [], st.closed + [Hunk(st.start, open)])
               else Scan(st.start, open, st.closed)
  {
  }

  lemma StepAtRest(original: seq<string>, upgraded: seq<string>, i: nat, st: Scan)
    requires Consistent(st) && !Differs(original, upgraded, i) && st.open == []
    ensures Step(original, upgraded, i, st) == st
  {
  }

  /** After the loop: a hunk still open is flushed too. */
  function Finish(st: Scan): seq<Hunk>
    requires Consistent(st)
  {
    if st.open != [] then st.closed + [Hunk(st.start, st.open)] else st.closed
  }

  function DiffHunks(original: seq<string>, upgraded: seq<string>): seq<Hunk> {
    Finish(ScanTo(original, upgraded, Width(original, upgraded)))
  }

  // ---------------------------------------------------------------------
  // Rendering

  function LineText(l: DiffLine): string {
    match l
    case Context(t) => " " + t
    case Removed(t) => "-" + t
    case Added(t) => "+" + t
  }

  function Texts(lines: seq<DiffLine>): (ts: seq<string>)
    ensures |ts| == |lines|
  {
    if lines == [] then [] else Texts(lines[..|lines| - 1]) + [LineText(lines[|lines| - 1])]
  }

  function CountContext(lines: seq<DiffLine>): nat {
    if lines == [] then 0 else CountContext(lines[..|lines| - 1]) + (if lines[|lines| - 1].Context? then 1 else 0)
  }

  function CountRemoved(lines: seq<DiffLine>): nat {
    if lines == [] then 0 else CountRemoved(lines[..|lines| - 1]) + (if lines[|lines| - 1].Removed? then 1 else 0)
  }

  function CountAdded(lines: seq<DiffLine>): nat {
    if lines == [] then 0 else CountAdded(lines[..|lines| - 1]) + (if lines[|lines| - 1].Added? then 1 else 0)
  }

  /** `@@ -<start+1>,<old count> +<start+1>,<new count> @@`: the old side
      counts `-` and context lines, the new side `+` and context lines. */
  function HunkHeader(start: nat, oldCount: nat, newCount: nat): string {
    "@@ -" + NatToString(start + 1) + "," + NatToString(oldCount)
      + " +" + NatToString(start + 1) + "," + NatToString(newCount) + " @@\n"
  }

  function RenderHunk(h: Hunk): string {
    HunkHeader(h.start, CountRemoved(h.lines) + CountContext(h.lines), CountAdded(h.lines) + CountContext(h.lines))
      + Join(Texts(h.lines), "\n") + "\n"
  }

  function RenderHunks(hs: seq<Hunk>): string {
    if hs == [] then "" else RenderHunks(hs[..|hs| - 1]) + RenderHunk(hs[|hs| - 1])
  }

  /** The text `generatePackageJsonDiff` returns. */
  function DiffText(original: seq<string>, upgraded: seq<string>): string {
    Preamble + RenderHunks(DiffHunks(original, upgraded))
  }

  // ---------------------------------------------------------------------
  // The string-side expressions of the source

  /** `lines.filter((l) => l.startsWith(c)).length`. */
  function CountStartingWith(lines: seq<string>, c: char): nat {
    if lines == [] then 0
    else CountStartingWith(lines[..|lines| - 1], c) + (if [c] <= lines[|lines| - 1] then 1 else 0)
  }

  predicate IsChangeText(l: string) {
    "-" <= l || "+" <= l
  }

  /** `lines.findLastIndex((line) => line.startsWith("-") || line.startsWith("+"))`. */
  function LastChangeIndex(lines: seq<string>): (r: int)
    ensures -1 <= r < |lines|
  {
    if lines == [] then -1
    else if IsChangeText(lines[|lines| - 1]) then |lines| - 1
    else LastChangeIndex(lines[..|lines| - 1])
  }

  /** `lines.filter((l, idx) => idx > after && l.startsWith(" ")).length`. */
  function CountContextAfter(lines: seq<string>, after: int): nat {
    if lines == [] then 0
    else CountContextAfter(lines[..|lines| - 1], after)
         + (if |lines| - 1 > after && " " <= lines[|lines| - 1] then 1 else 0)
  }

  // ---------------------------------------------------------------------
  // The method

  /** `generatePackageJsonDiff`, from the two `split("\n")` line arrays. */
  method GeneratePackageJsonDiff(originalLines: seq<string>, upgradedLines: seq<string>) returns (diff: string)
    ensures diff == DiffText(originalLines, upgradedLines)
    ensures Preamble <= diff
    ensures diff == Preamble <==> SameLines(originalLines, upgradedLines)
  {
    diff := Preamble;
    var maxLines := if |originalLines| < |upgradedLines| then |upgradedLines| else |originalLines|;
    var hunkStart := -1;
    var hunkLines: seq<string> := [];

    ghost var st := ScanTo(originalLines, upgradedLines, 0);
    for i := 0 to maxLines
      invariant st == ScanTo(originalLines, upgradedLines, i)
      invariant hunkStart == st.start
      invariant hunkLines == Texts(st.open)
      invariant diff == Preamble + RenderHunks(st.closed)
    {
      hunkStart, hunkLines, diff := ScanLine(originalLines, upgradedLines, i, hunkStart, hunkLines, diff, st, Preamble);
      ScanToNext(originalLines, upgradedLines, i);
      st := ScanTo(originalLines, upgradedLines, i + 1);
    }

    if |hunkLines| > 0 {
      diff := FlushHunk(diff, hunkStart, hunkLines, st.open);
      FlushRenders(Preamble, st.closed, Hunk(hunkStart, st.open));
    }
    DiffTextShape(originalLines, upgradedLines);
  }

  /** One iteration of the loop over line indices, at index `i`: `hunkStart`,
      `hunkLines` and `diff` (the text so far after `prefix`) move on as `Step` does. */
  method ScanLine(originalLines: seq<string>, upgradedLines: seq<string>, i: nat,
                  hunkStart: int, hunkLines: seq<string>, diff: string, ghost st: Scan, ghost prefix: string)
    returns (hunkStart': int, hunkLines': seq<string>, diff': string)
    requires Consistent(st)
    requires hunkStart == st.start && hunkLines == Texts(st.open) && diff == prefix + RenderHunks(st.closed)
    ensures var next := Step(originalLines, upgradedLines, i, st);
            hunkStart' == next.start && hunkLines' == Texts(next.open) && diff' == prefix + RenderHunks(next.closed)
  {
    var origLine := LineAt(originalLines, i);
    var upgLine := LineAt(upgradedLines, i);
    if origLine != upgLine {
      StepAtDifference(originalLines, upgradedLines, i, st);
      hunkStart', hunkLines' := AddChange(originalLines, upgradedLines, i, hunkStart, hunkLines, st);
      diff' := diff;
    } else if |hunkLines| > 0 {
      StepAtContext(originalLines, upgradedLines, i, st);
      hunkStart', hunkLines', diff' := AddContext(originalLines, upgradedLines, i, hunkStart, hunkLines, diff, st, prefix);
    } else {
      StepAtRest(originalLines, upgradedLines, i, st);
      hunkStart', hunkLines', diff' := hunkStart, hunkLines, diff;
    }
  }

  /** At a differing index: open a hunk if none is open (with up to three
      lines of leading context), then push the change lines. */
  method AddChange(originalLines: seq<string>, upgradedLines: seq<string>, i: nat,
                   hunkStart: int, hunkLines: seq<string>, ghost st: Scan)
    returns (hunkStart': int, hunkLines': seq<string>)
    requires Consistent(st) && Differs(originalLines, upgradedLines, i)
    requires hunkStart == st.start && hunkLines == Texts(st.open)
    ensures hunkStart' == (if st.start == -1 then i else st.start)
    ensures hunkLines' == Texts(st.open + (if st.open == [] && i > 0 then ContextRange(originalLines, LeadStart(i), i) else [])
                                        + ChangeLines(originalLines, upgradedLines, i))
  {
    hunkStart', hunkLines' := hunkStart, hunkLines;
    if hunkStart' == -1 {
      hunkStart' := i;
    }
    ghost var lead: seq<DiffLine> := [];
    if |hunkLines'| == 0 && i > 0 {
      hunkLines' := AddLeadingContext(originalLines, i, hunkLines');
      lead := LeadingContext(originalLines, i);
    }
    ghost var cl := ChangeLines(originalLines, upgradedLines, i);
    hunkLines' := PushChangeLines(originalLines, upgradedLines, i, hunkLines');
    assert lead == (if st.open == [] && i > 0 then ContextRange(originalLines, LeadStart(i), i) else []);
    TextsConcat(st.open, lead);
    TextsConcat(st.open + lead, cl);
  }

  /** The change lines for index `i`: `-` for the original line and `+` for
      the upgraded one, dropping whichever side is empty (both when both are). */
  method PushChangeLines(originalLines: seq<string>, upgradedLines: seq<string>, i: nat, hunkLines: seq<string>)
    returns (hunkLines': seq<string>)
    ensures hunkLines' == hunkLines + Texts(ChangeLines(originalLines, upgradedLines, i))
  {
    var origLine := LineAt(originalLines, i);
    var upgLine := LineAt(upgradedLines, i);
    TextsOfChangeLines(originalLines, upgradedLines, i);
    if origLine != "" && upgLine == "" {
      hunkLines' := hunkLines + ["-" + origLine];
    } else if origLine == "" && upgLine != "" {
      hunkLines' := hunkLines + ["+" + upgLine];
    } else {
      hunkLines' := hunkLines + ["-" + origLine];
      hunkLines' := hunkLines' + ["+" + upgLine];
      assert hunkLines' == hunkLines + ["-" + origLine, "+" + upgLine];
    }
  }

  /** The context lines pushed when a hunk opens at `i`: original lines
      `max(0, i - 3) .. i - 1`. */
  method AddLeadingContext(originalLines: seq<string>, i: nat, hunkLines: seq<string>) returns (hunkLines': seq<string>)
    ensures hunkLines' == hunkLines + Texts(LeadingContext(originalLines, i))
  {
    hunkLines' := hunkLines;
    var contextStart := if i >= 3 then i - 3 else 0;
    assert Texts(ContextRange(originalLines, contextStart, contextStart)) == [];
    for j := contextStart to i
      invariant hunkLines' == hunkLines + Texts(ContextRange(originalLines, contextStart, j))
    {
      LeadingContextStep(originalLines, contextStart, j, hunkLines, hunkLines');
      hunkLines' := hunkLines' + [" " + PrintedLine(originalLines, j)];
    }
  }

  /** One more leading context line pushed. */
  lemma LeadingContextStep(originalLines: seq<string>, lo: nat, j: nat, hunkLines: seq<string>, pushed: seq<string>)
    requires lo <= j
    requires pushed == hunkLines + Texts(ContextRange(originalLines, lo, j))
    ensures pushed + [" " + PrintedLine(originalLines, j)] == hunkLines + Texts(ContextRange(originalLines, lo, j + 1))
  {
    var line := [Context(PrintedLine(originalLines, j))];
    assert ContextRange(originalLines, lo, j + 1) == ContextRange(originalLines, lo, j) + line;
    TextsConcat(ContextRange(originalLines, lo, j), line);
    assert Texts(line) == [" " + PrintedLine(originalLines, j)];
  }

  /** At an equal index inside an open hunk: push a context line, and flush
      the hunk once three context lines follow its last change. */
  method AddContext(originalLines: seq<string>, upgradedLines: seq<string>, i: nat,
                    hunkStart: int, hunkLines: seq<string>, diff: string, ghost st: Scan, ghost prefix: string)
    returns (hunkStart': int, hunkLines': seq<string>, diff': string)
    requires Consistent(st) && st.open != []
    requires hunkStart == st.start && hunkLines == Texts(st.open) && diff == prefix + RenderHunks(st.closed)
    ensures var open := st.open + [Context(LineAt(originalLines, i))];
            if TrailingContext(open) >= 3
            then hunkStart' == -1 && hunkLines' == [] && diff' == prefix + RenderHunks(st.closed + [Hunk(st.start, open)])
            else hunkStart' == st.start && hunkLines' == Texts(open) && diff' == diff
  {
    var origLine := LineAt(originalLines, i);
    TextsConcat(st.open, [Context(origLine)]);
    hunkStart', hunkLines', diff' := hunkStart, hunkLines + [" " + origLine], diff;
    ghost var open := st.open + [Context(origLine)];
    TailContextOfTexts(open);
    var contextAfter := CountContextAfter(hunkLines', LastChangeIndex(hunkLines'));
    if contextAfter >= 3 {
      diff' := FlushHunk(diff', hunkStart', hunkLines', open);
      FlushRenders(prefix, st.closed, Hunk(hunkStart', open));
      hunkStart' := -1;
      hunkLines' := [];
    }
  }

  /** The flush the source writes twice: the header, then the hunk's lines
      joined by newlines, then a final newline. */
  method FlushHunk(diff: string, hunkStart: nat, hunkLines: seq<string>, ghost open: seq<DiffLine>) returns (out: string)
    requires hunkLines == Texts(open)
    ensures out == diff + RenderHunk(Hunk(hunkStart, open))
  {
    CountsOfTexts(open);
    var addedCount := CountStartingWith(hunkLines, '+');
    var removedCount := CountStartingWith(hunkLines, '-');
    var contextCount := CountStartingWith(hunkLines, ' ');
    out := diff + HunkHeader(hunkStart, removedCount + contextCount, addedCount + contextCount);
    out := out + Join(hunkLines, "\n") + "\n";
  }

  // ---------------------------------------------------------------------
  // Lemmas tying the strings to the structured hunks

  lemma {:induction false} TextsConcat(a: seq<DiffLine>, b: seq<DiffLine>)
    ensures Texts(a + b) == Texts(a) + Texts(b)
    decreases |b|
  {
    if b == [] {
      assert a + b == a;
    } else {
      assert (a + b)[..|a + b| - 1] == a + b[..|b| - 1];
      assert (a + b)[|a + b| - 1] == b[|b| - 1];
      TextsConcat(a, b[..|b| - 1]);
    }
  }

  /** A rendered line starts with its marker character. */
  lemma LineTextStarts(l: DiffLine)
    ensures " " <= LineText(l) <==> l.Context?
    ensures "-" <= LineText(l) <==> l.Removed?
    ensures "+" <= LineText(l) <==> l.Added?
  {
    var t := LineText(l);
    assert t[..1] == [t[0]];
  }

  lemma {:induction false} CountsOfTexts(lines: seq<DiffLine>)
    ensures CountStartingWith(Texts(lines), '+') == CountAdded(lines)
    ensures CountStartingWith(Texts(lines), '-') == CountRemoved(lines)
    ensures CountStartingWith(Texts(lines), ' ') == CountContext(lines)
  {
    if lines != [] {
      var front := lines[..|lines| - 1];
      assert Texts(lines)[..|lines| - 1] == Texts(front);
      assert Texts(lines)[|lines| - 1] == LineText(lines[|lines| - 1]);
      LineTextStarts(lines[|lines| - 1]);
      CountsOfTexts(front);
    }
  }

  lemma {:induction false} CountContextAfterEnd(lines: seq<string>, after: int)
    requires after >= |lines| - 1
    ensures CountContextAfter(lines, after) == 0
  {
    if lines != [] {
      CountContextAfterEnd(lines[..|lines| - 1], after);
    }
  }

  /** The source's `contextAfter` is the number of trailing context lines. */
  lemma {:induction false} TailContextOfTexts(lines: seq<DiffLine>)
    ensures CountContextAfter(Texts(lines), LastChangeIndex(Texts(lines))) == TrailingContext(lines)
  {
    if lines != [] {
      var front := lines[..|lines| - 1];
      var ts := Texts(lines);
      assert ts[..|lines| - 1] == Texts(front);
      if lines[|lines| - 1].Context? {
        assert ts[|lines| - 1] == LineText(lines[|lines| - 1]);
        LineTextStarts(lines[|lines| - 1]);
        TailContextOfTexts(front);
        var after := LastChangeIndex(Texts(front));
        assert CountContextAfter(ts, after) == CountContextAfter(Texts(front), after) + 1;
      } else {
        CountContextAfterEnd(ts, |lines| - 1);
      }
    }
  }

  lemma TextsOfChangeLines(original: seq<string>, upgraded: seq<string>, i: nat)
    ensures var origLine := LineAt(original, i);
            var upgLine := LineAt(upgraded, i);
            Texts(ChangeLines(original, upgraded, i))
            == if origLine != "" && upgLine == "" then ["-" + origLine]
               else if origLine == "" && upgLine != "" then ["+" + upgLine]
               else ["-" + origLine, "+" + upgLine]
  {
  }

  lemma PrefixOfConcat(a: string, b: string)
    ensures a <= a + b
  {
    assert (a + b)[..|a|] == a;
  }

  /** Flushing a hunk appends its rendering. */
  lemma FlushRenders(prefix: string, closed: seq<Hunk>, h: Hunk)
    ensures prefix + RenderHunks(closed) + RenderHunk(h) == prefix + RenderHunks(closed + [h])
  {
    assert (closed + [h])[..|closed|] == closed;
  }

  /** The text always starts with the preamble, and is the bare preamble
      exactly when the two serialisations agree line for line. */
  lemma DiffTextShape(original: seq<string>, upgraded: seq<string>)
    ensures Preamble <= DiffText(original, upgraded)
    ensures DiffText(original, upgraded) == Preamble <==> SameLines(original, upgraded)
  {
    var r := RenderHunks(DiffHunks(original, upgraded));
    PrefixOfConcat(Preamble, r);
    NoHunksIffSameLines(original, upgraded);
    RenderHunksEmptyIff(DiffHunks(original, upgraded));
    assert |Preamble + r| == |Preamble| + |r|;
  }

  lemma RenderHunksEmptyIff(hs: seq<Hunk>)
    ensures RenderHunks(hs) == "" <==> hs == []
  {
    if hs != [] {
      var h := hs[|hs| - 1];
      assert RenderHunk(h)[0] == '@';
    }
  }

  // ---------------------------------------------------------------------
  // What the scan guarantees

  /** The `-`/`+` lines of a list of hunk lines, in order. */
  function ChangesOf(lines: seq<DiffLine>): seq<DiffLine> {
    if lines == [] then []
    else ChangesOf(lines[..|lines| - 1]) + (if lines[|lines| - 1].Context? then [] else [lines[|lines| - 1]])
  }

  function HunksChanges(hs: seq<Hunk>): seq<DiffLine> {
    if hs == [] then [] else HunksChanges(hs[..|hs| - 1]) + ChangesOf(hs[|hs| - 1].lines)
  }

  /** The `-`/`+` lines every differing index below `k` calls for, in index order. */
  function AllChanges(original: seq<string>, upgraded: seq<string>, k: nat): seq<DiffLine> {
    if k == 0 then []
    else AllChanges(original, upgraded, k - 1)
         + (if Differs(original, upgraded, k - 1) then ChangeLines(original, upgraded, k - 1) else [])
  }

  /** A hunk opens at a differing index, with its leading context and that
      index's change lines. */
  ghost predicate OpensAt(original: seq<string>, upgraded: seq<string>, h: Hunk) {
    && Differs(original, upgraded, h.start)
    && LeadingContext(original, h.start) + ChangeLines(original, upgraded, h.start) <= h.lines
  }

  /** The flushed hunks: each opened below `k` and ends with three context lines. */
  ghost predicate ClosedOk(original: seq<string>, upgraded: seq<string>, k: nat, closed: seq<Hunk>) {
    forall j :: 0 <= j < |closed| ==>
      && closed[j].start < k
      && OpensAt(original, upgraded, closed[j])
      && TrailingContext(closed[j].lines) == 3
  }

  ghost predicate Increasing(hs: seq<Hunk>) {
    forall j1, j2 :: 0 <= j1 < j2 < |hs| ==> hs[j1].start < hs[j2].start
  }

  /** The open hunk, if any: opened below `k`, after every flushed hunk, and
      not yet followed by three context lines. */
  ghost predicate OpenOk(original: seq<string>, upgraded: seq<string>, k: nat, st: Scan)
    requires Consistent(st)
  {
    st.open != [] ==>
      && st.start < k
      && OpensAt(original, upgraded, Hunk(st.start, st.open))
      && TrailingContext(st.open) < 3
      && forall j :: 0 <= j < |st.closed| ==> st.closed[j].start < st.start
  }

  ghost predicate Covered(original: seq<string>, upgraded: seq<string>, k: nat, st: Scan) {
    HunksChanges(st.closed) + ChangesOf(st.open) == AllChanges(original, upgraded, k)
  }

  ghost predicate ScanInv(original: seq<string>, upgraded: seq<string>, k: nat, st: Scan) {
    && Consistent(st)
    && ClosedOk(original, upgraded, k, st.closed)
    && Increasing(st.closed)
    && OpenOk(original, upgraded, k, st)
    && Covered(original, upgraded, k, st)
  }

  lemma {:induction false} ChangesOfConcat(a: seq<DiffLine>, b: seq<DiffLine>)
    ensures ChangesOf(a + b) == ChangesOf(a) + ChangesOf(b)
    decreases |b|
  {
    if b == [] {
      assert a + b == a;
    } else {
      var front := b[..|b| - 1];
      assert (a + b)[..|a + b| - 1] == a + front;
      assert (a + b)[|a + b| - 1] == b[|b| - 1];
      ChangesOfConcat(a, front);
    }
  }

  lemma {:induction false} ChangesOfContextRange(original: seq<string>, lo: nat, hi: nat)
    ensures ChangesOf(ContextRange(original, lo, hi)) == []
    decreases hi
  {
    if hi > lo {
      var r := ContextRange(original, lo, hi);
      assert r[..|r| - 1] == ContextRange(original, lo, hi - 1);
      ChangesOfContextRange(original, lo, hi - 1);
    }
  }

  lemma ChangesOfChangeLines(original: seq<string>, upgraded: seq<string>, i: nat)
    ensures ChangesOf(ChangeLines(original, upgraded, i)) == ChangeLines(original, upgraded, i)
  {
    var cl := ChangeLines(original, upgraded, i);
    assert cl[..1][..0] == [];
    assert ChangesOf(cl[..1]) == [cl[0]];
    if |cl| == 2 {
      assert cl[..1] == [cl[0]];
      assert cl == [cl[0], cl[1]];
    } else {
      assert cl == cl[..1];
    }
  }

  lemma PrefixExtends(p: seq<DiffLine>, s: seq<DiffLine>, t: seq<DiffLine>)
    requires p <= s
    ensures p <= s + t
  {
    assert (s + t)[..|p|] == s[..|p|];
  }

  lemma TrailingContextOfChange(lines: seq<DiffLine>, cl: seq<DiffLine>)
    requires cl != [] && !cl[|cl| - 1].Context?
    ensures TrailingContext(lines + cl) == 0
  {
    assert (lines + cl)[|lines + cl| - 1] == cl[|cl| - 1];
  }

  lemma ClosedOkGrows(original: seq<string>, upgraded: seq<string>, k: nat, closed: seq<Hunk>)
    requires ClosedOk(original, upgraded, k, closed)
    ensures ClosedOk(original, upgraded, k + 1, closed)
  {
  }

  lemma ChangesAppend(open: seq<DiffLine>, lead: seq<DiffLine>, cl: seq<DiffLine>)
    requires ChangesOf(lead) == [] && ChangesOf(cl) == cl
    ensures ChangesOf(open + lead + cl) == ChangesOf(open) + cl
  {
    ChangesOfConcat(open + lead, cl);
    ChangesOfConcat(open, lead);
    assert ChangesOf(open) + [] == ChangesOf(open);
  }

  /** The change lines `Step` appends at a differing index `k`. */
  lemma CoveredAfterChange(original: seq<string>, upgraded: seq<string>, k: nat, st: Scan, lead: seq<DiffLine>)
    requires Covered(original, upgraded, k, st)
    requires Differs(original, upgraded, k)
    requires ChangesOf(lead) == []
    ensures Covered(original, upgraded, k + 1, Scan(st.start, st.open + lead + ChangeLines(original, upgraded, k), st.closed))
  {
    var cl := ChangeLines(original, upgraded, k);
    ChangesOfChangeLines(original, upgraded, k);
    ChangesAppend(st.open, lead, cl);
    assert AllChanges(original, upgraded, k + 1) == AllChanges(original, upgraded, k) + cl;
    ConcatAssoc(HunksChanges(st.closed), ChangesOf(st.open), cl);
  }

  lemma ConcatAssoc<T>(a: seq<T>, b: seq<T>, c: seq<T>)
    ensures a + (b + c) == a + b + c
  {
  }

  /** A step at a differing index with no hunk open: a hunk opens at `k`. */
  lemma StepOpens(original: seq<string>, upgraded: seq<string>, k: nat, st: Scan)
    requires ScanInv(original, upgraded, k, st)
    requires Differs(original, upgraded, k) && st.open == []
    ensures ScanInv(original, upgraded, k + 1, Step(original, upgraded, k, st))
  {
    var cl := ChangeLines(original, upgraded, k);
    var lead := LeadingContext(original, k);
    var r := Scan(k, st.open + lead + cl, st.closed);
    assert Step(original, upgraded, k, st) == r;
    assert r.open == lead + cl;
    TrailingContextOfChange(st.open + lead, cl);
    ClosedOkGrows(original, upgraded, k, st.closed);
    ChangesOfContextRange(original, LeadStart(k), k);
    CoveredAfterChange(original, upgraded, k, st, lead);
  }

  /** A step at a differing index inside an open hunk: its change lines are appended. */
  lemma StepExtends(original: seq<string>, upgraded: seq<string>, k: nat, st: Scan)
    requires ScanInv(original, upgraded, k, st)
    requires Differs(original, upgraded, k) && st.open != []
    ensures ScanInv(original, upgraded, k + 1, Step(original, upgraded, k, st))
  {
    var cl := ChangeLines(original, upgraded, k);
    var r := Scan(st.start, st.open + [] + cl, st.closed);
    assert Step(original, upgraded, k, st) == r;
    assert r.open == st.open + cl;
    TrailingContextOfChange(st.open, cl);
    ClosedOkGrows(original, upgraded, k, st.closed);
    PrefixExtends(LeadingContext(original, st.start) + ChangeLines(original, upgraded, st.start), st.open, cl);
    assert ChangesOf([]) == [];
    CoveredAfterChange(original, upgraded, k, st, []);
  }

  /** A step at an equal index while a hunk is open: one more context line,
      and a flush when that makes three. */
  lemma StepContext(original: seq<string>, upgraded: seq<string>, k: nat, st: Scan)
    requires ScanInv(original, upgraded, k, st)
    requires !Differs(original, upgraded, k) && st.open != []
    ensures ScanInv(original, upgraded, k + 1, Step(original, upgraded, k, st))
  {
    var open := st.open + [Context(LineAt(original, k))];
    assert open[..|open| - 1] == st.open;
    if TrailingContext(st.open) + 1 >= 3 {
      StepContextFlushes(original, upgraded, k, st);
    } else {
      StepContextKeepsOpen(original, upgraded, k, st);
    }
  }

  /** The third context line in a row closes the open hunk. */
  lemma StepContextFlushes(original: seq<string>, upgraded: seq<string>, k: nat, st: Scan)
    requires ScanInv(original, upgraded, k, st)
    requires !Differs(original, upgraded, k) && st.open != []
    requires TrailingContext(st.open) + 1 >= 3
    ensures ScanInv(original, upgraded, k + 1, Step(original, upgraded, k, st))
  {
    var open := st.open + [Context(LineAt(original, k))];
    assert open[..|open| - 1] == st.open;
    assert TrailingContext(open) == TrailingContext(st.open) + 1;
    assert ChangesOf(open) == ChangesOf(st.open);
    ClosedOkGrows(original, upgraded, k, st.closed);
    PrefixExtends(LeadingContext(original, st.start) + ChangeLines(original, upgraded, st.start), st.open, [Context(LineAt(original, k))]);
    var h := Hunk(st.start, open);
    var closed := st.closed + [h];
    assert Step(original, upgraded, k, st) == Scan(-1, [], closed);
    ClosedOkSnoc(original, upgraded, k + 1, st.closed, h);
    IncreasingSnoc(st.closed, h);
    assert closed[..|closed| - 1] == st.closed;
    assert HunksChanges(closed) == HunksChanges(st.closed) + ChangesOf(open);
  }

  lemma ClosedOkSnoc(original: seq<string>, upgraded: seq<string>, k: nat, closed: seq<Hunk>, h: Hunk)
    requires ClosedOk(original, upgraded, k, closed)
    requires h.start < k && OpensAt(original, upgraded, h) && TrailingContext(h.lines) == 3
    ensures ClosedOk(original, upgraded, k, closed + [h])
  {
    var hs := closed + [h];
    forall j | 0 <= j < |hs|
      ensures hs[j].start < k && OpensAt(original, upgraded, hs[j]) && TrailingContext(hs[j].lines) == 3
    {
      if j < |closed| {
        assert hs[j] == closed[j];
      }
    }
  }

  lemma IncreasingSnoc(closed: seq<Hunk>, h: Hunk)
    requires Increasing(closed)
    requires forall j :: 0 <= j < |closed| ==> closed[j].start < h.start
    ensures Increasing(closed + [h])
  {
  }

  /** A first or second context line in a row keeps the hunk open. */
  lemma StepContextKeepsOpen(original: seq<string>, upgraded: seq<string>, k: nat, st: Scan)
    requires ScanInv(original, upgraded, k, st)
    requires !Differs(original, upgraded, k) && st.open != []
    requires TrailingContext(st.open) + 1 < 3
    ensures ScanInv(original, upgraded, k + 1, Step(original, upgraded, k, st))
  {
    var open := st.open + [Context(LineAt(original, k))];
    assert open[..|open| - 1] == st.open;
    assert TrailingContext(open) == TrailingContext(st.open) + 1;
    assert ChangesOf(open) == ChangesOf(st.open);
    ClosedOkGrows(original, upgraded, k, st.closed);
    PrefixExtends(LeadingContext(original, st.start) + ChangeLines(original, upgraded, st.start), st.open, [Context(LineAt(original, k))]);
    assert Step(original, upgraded, k, st) == Scan(st.start, open, st.closed);
  }

  lemma StepKeepsInv(original: seq<string>, upgraded: seq<string>, k: nat, st: Scan)
    requires ScanInv(original, upgraded, k, st)
    ensures ScanInv(original, upgraded, k + 1, Step(original, upgraded, k, st))
  {
    if Differs(original, upgraded, k) {
      if st.open == [] {
        StepOpens(original, upgraded, k, st);
      } else {
        StepExtends(original, upgraded, k, st);
      }
    } else if st.open != [] {
      StepContext(original, upgraded, k, st);
    } else {
      assert Step(original, upgraded, k, st) == st;
      ClosedOkGrows(original, upgraded, k, st.closed);
    }
  }

  lemma {:induction false} ScanInvariant(original: seq<string>, upgraded: seq<string>, k: nat, st: Scan)
    requires st == ScanTo(original, upgraded, k)
    ensures ScanInv(original, upgraded, k, st)
  {
    if k > 0 {
      var prev := ScanTo(original, upgraded, k - 1);
      ScanInvariant(original, upgraded, k - 1, prev);
      StepKeepsInv(original, upgraded, k - 1, prev);
    }
  }

  /** Every hunk opens at a differing index below the width, with up to three
      lines of original context before it (none at index 0) and then that
      index's `-`/`+` lines. */
  lemma HunksOpenAtDifferences(original: seq<string>, upgraded: seq<string>)
    ensures var hs := DiffHunks(original, upgraded);
            forall j :: 0 <= j < |hs| ==> hs[j].start < Width(original, upgraded) && OpensAt(original, upgraded, hs[j])
  {
    ScanInvariant(original, upgraded, Width(original, upgraded), ScanTo(original, upgraded, Width(original, upgraded)));
  }

  /** Hunks come in increasing order of their starts. */
  lemma HunkStartsIncrease(original: seq<string>, upgraded: seq<string>)
    ensures Increasing(DiffHunks(original, upgraded))
  {
    var st := ScanTo(original, upgraded, Width(original, upgraded));
    ScanInvariant(original, upgraded, Width(original, upgraded), st);
    if st.open != [] {
      IncreasingSnoc(st.closed, Hunk(st.start, st.open));
    }
  }

  /** A hunk is flushed once three context lines follow its last change:
      every hunk but the last ends with exactly three, the last with at most three. */
  lemma HunksCloseAfterThreeContextLines(original: seq<string>, upgraded: seq<string>)
    ensures var hs := DiffHunks(original, upgraded);
            && (forall j :: 0 <= j < |hs| - 1 ==> TrailingContext(hs[j].lines) == 3)
            && (hs != [] ==> TrailingContext(hs[|hs| - 1].lines) <= 3)
  {
    ScanInvariant(original, upgraded, Width(original, upgraded), ScanTo(original, upgraded, Width(original, upgraded)));
  }

  /** Nothing is lost or doubled: the hunks' `-`/`+` lines, read in order,
      are exactly the change lines of every differing index, in index order. */
  lemma HunksCoverEveryChange(original: seq<string>, upgraded: seq<string>)
    ensures HunksChanges(DiffHunks(original, upgraded)) == AllChanges(original, upgraded, Width(original, upgraded))
  {
    var st := ScanTo(original, upgraded, Width(original, upgraded));
    ScanInvariant(original, upgraded, Width(original, upgraded), st);
    if st.open != [] {
      var hs := st.closed + [Hunk(st.start, st.open)];
      assert hs[..|hs| - 1] == st.closed;
    } else {
      assert ChangesOf(st.open) == [];
      assert HunksChanges(st.closed) + [] == HunksChanges(st.closed);
    }
  }

  lemma {:induction false} AllChangesEmptyIff(original: seq<string>, upgraded: seq<string>, k: nat)
    ensures AllChanges(original, upgraded, k) == [] <==> forall i :: 0 <= i < k ==> !Differs(original, upgraded, i)
  {
    if k > 0 {
      AllChangesEmptyIff(original, upgraded, k - 1);
    }
  }

  lemma OpenedHunkHasChanges(original: seq<string>, upgraded: seq<string>, h: Hunk)
    requires OpensAt(original, upgraded, h)
    ensures ChangesOf(h.lines) != []
  {
    var p := LeadingContext(original, h.start) + ChangeLines(original, upgraded, h.start);
    assert h.lines == p + h.lines[|p|..];
    ChangesOfConcat(p, h.lines[|p|..]);
    ChangesOfConcat(LeadingContext(original, h.start), ChangeLines(original, upgraded, h.start));
    ChangesOfContextRange(original, LeadStart(h.start), h.start);
    ChangesOfChangeLines(original, upgraded, h.start);
  }

  /** The diff has no hunk exactly when the two serialisations agree line for line. */
  lemma NoHunksIffSameLines(original: seq<string>, upgraded: seq<string>)
    ensures DiffHunks(original, upgraded) == [] <==> SameLines(original, upgraded)
  {
    var hs := DiffHunks(original, upgraded);
    var w := Width(original, upgraded);
    HunksCoverEveryChange(original, upgraded);
    HunksOpenAtDifferences(original, upgraded);
    AllChangesEmptyIff(original, upgraded, w);
    if hs != [] {
      OpenedHunkHasChanges(original, upgraded, hs[|hs| - 1]);
      assert HunksChanges(hs) == HunksChanges(hs[..|hs| - 1]) + ChangesOf(hs[|hs| - 1].lines);
    }
  }

  // ---------------------------------------------------------------------
  // Hunks are excerpts

  /** What the hunk lines show of the upgraded side: context and `+` lines. */
  function NewSide(lines: seq<DiffLine>): (r: seq<string>)
    ensures |r| <= |lines|
  {
    if lines == [] then []
    else NewSide(lines[..|lines| - 1]) + (if lines[|lines| - 1].Removed? then [] else [lines[|lines| - 1].text])
  }

  /** Nine lines, the fifth changed. */
  predicate FifthOfNineChanged(o: seq<string>, u: seq<string>) {
    o == ["a", "b", "c", "d", "e", "f", "g", "h", "i"] && u == o[4 := "E"]
  }

  function FifthChangeLines(): seq<DiffLine> {
    [Context("b"), Context("c"), Context("d"), Removed("e"), Added("E")]
  }

  lemma TrailingContextSnoc(lines: seq<DiffLine>, l: DiffLine)
    ensures TrailingContext(lines + [l]) == if l.Context? then 1 + TrailingContext(lines) else 0
  {
    assert (lines + [l])[..|lines|] == lines;
  }

  lemma QuietUntilFifth(o: seq<string>, u: seq<string>)
    requires FifthOfNineChanged(o, u)
    ensures ScanTo(o, u, 5) == Scan(4, FifthChangeLines(), [])
    ensures TrailingContext(FifthChangeLines()) == 0
  {
    var rest := Scan(-1, [], []);
    assert !Differs(o, u, 0) && ScanTo(o, u, 1) == rest;
    assert !Differs(o, u, 1) && ScanTo(o, u, 2) == rest;
    assert !Differs(o, u, 2) && ScanTo(o, u, 3) == rest;
    assert !Differs(o, u, 3) && ScanTo(o, u, 4) == rest;
    assert ContextRange(o, 1, 4) == [Context("b"), Context("c"), Context("d")];
    assert FifthChangeLines()[|FifthChangeLines()| - 1] == Added("E");
  }

  lemma SixthIsContext(o: seq<string>, u: seq<string>)
    requires FifthOfNineChanged(o, u)
    ensures ScanTo(o, u, 6) == Scan(4, FifthChangeLines() + [Context("f")], [])
    ensures TrailingContext(FifthChangeLines() + [Context("f")]) == 1
  {
    QuietUntilFifth(o, u);
    TrailingContextSnoc(FifthChangeLines(), Context("f"));
    assert LineAt(o, 5) == "f" && !Differs(o, u, 5);
  }

  lemma SeventhIsContext(o: seq<string>, u: seq<string>)
    requires FifthOfNineChanged(o, u)
    ensures ScanTo(o, u, 7) == Scan(4, FifthChangeLines() + [Context("f")] + [Context("g")], [])
    ensures TrailingContext(FifthChangeLines() + [Context("f")] + [Context("g")]) == 2
  {
    SixthIsContext(o, u);
    TrailingContextSnoc(FifthChangeLines() + [Context("f")], Context("g"));
    assert LineAt(o, 6) == "g" && !Differs(o, u, 6);
  }

  lemma ContextAfterFifth(o: seq<string>, u: seq<string>)
    requires FifthOfNineChanged(o, u)
    ensures ScanTo(o, u, 8)
            == Scan(-1, [], [Hunk(4, FifthChangeLines() + [Context("f")] + [Context("g")] + [Context("h")])])
  {
    SeventhIsContext(o, u);
    TrailingContextSnoc(FifthChangeLines() + [Context("f")] + [Context("g")], Context("h"));
    assert LineAt(o, 7) == "h" && !Differs(o, u, 7);
  }

  /** One changed line in the middle of nine: the single hunk shows three lines
      of context on each side, so lines outside it are never printed and the
      upgraded text cannot be rebuilt from the diff's context and `+` lines. */
  lemma HunksDoNotRebuildUpgraded(o: seq<string>, u: seq<string>)
    requires FifthOfNineChanged(o, u)
    ensures DiffHunks(o, u)
            == [Hunk(4, [Context("b"), Context("c"), Context("d"), Removed("e"), Added("E"),
                         Context("f"), Context("g"), Context("h")])]
    ensures NewSide(DiffHunks(o, u)[0].lines) != u
  {
    ContextAfterFifth(o, u);
    assert Width(o, u) == 9;
    assert !Differs(o, u, 8);
    assert ScanTo(o, u, 9) == ScanTo(o, u, 8);
    assert FifthChangeLines() + [Context("f")] + [Context("g")] + [Context("h")]
           == [Context("b"), Context("c"), Context("d"), Removed("e"), Added("E"),
               Context("f"), Context("g"), Context("h")];
    var h := DiffHunks(o, u)[0];
    assert |NewSide(h.lines)| <= |h.lines| < |u|;
  }
}
