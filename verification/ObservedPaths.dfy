/**
  Paths printed for a client that observes one bank: the encoder leaves out the number of that bank, and the
  whole segment in front of a filter. Read again and resolved on the observed bank, a path comes back exactly
  when that bank does not stand in front of a filter in it.
 */
module ObservedPaths {
  import opened Common
  import opened StatePaths

  predicate IsBank(path: Path, i: nat, bank: nat) {
    i + 1 < |path| && path[i] == EQUALIZER_BANK && path[i + 1] == FIRST_BANK + bank
  }

  predicate Holds(path: Path, bank: nat) {
    exists i: nat :: i < |path| && IsBank(path, i, bank)
  }

  predicate HoldsBeforeFilter(path: Path, bank: nat) {
    exists i: nat :: i + 2 < |path| && IsBank(path, i, bank) && path[i + 2] == FILTER
  }

  /** What is read from the text of a path: the observed bank is the focused one, or is missing in front of a
      filter. */
  function Focused(path: Path, bank: nat): Path {
    if path == [] then []
    else if IsBank(path, 0, bank) then
      (if |path| > 2 && path[2] == FILTER then [] else [EQUALIZER_BANK, FOCUSED_BANK]) + Focused(path[2..], bank)
    else [path[0]] + Focused(path[1..], bank)
  }

  /** The path without the observed bank in front of filters. */
  function Dropped(path: Path, bank: nat): Path {
    if path == [] then []
    else if IsBank(path, 0, bank) then
      (if |path| > 2 && path[2] == FILTER then [] else path[..2]) + Dropped(path[2..], bank)
    else [path[0]] + Dropped(path[1..], bank)
  }

  /** A focused bank resolves to the selected one. */
  function Resolved(path: Path, bank: nat): (r: Path)
    ensures |r| == |path|
    ensures forall i :: 0 <= i < |path| ==> r[i] == if path[i] == FOCUSED_BANK then FIRST_BANK + bank else path[i]
  {
    seq(|path|, i requires 0 <= i < |path| => if path[i] == FOCUSED_BANK then FIRST_BANK + bank else path[i])
  }

  lemma ResolvedAppend(a: Path, b: Path, bank: nat)
    ensures Resolved(a + b, bank) == Resolved(a, bank) + Resolved(b, bank)
  {
  }

  lemma {:induction false} FocusedResolves(path: Path, bank: nat)
    requires FOCUSED_BANK !in path
    ensures Resolved(Focused(path, bank), bank) == Dropped(path, bank)
    decreases |path|
  {
    if path != [] {
      if IsBank(path, 0, bank) {
        FocusedResolves(path[2..], bank);
        assert path[..2] == [EQUALIZER_BANK, FIRST_BANK + bank];
        ResolvedAppend([EQUALIZER_BANK, FOCUSED_BANK], Focused(path[2..], bank), bank);
        ResolvedAppend([], Focused(path[2..], bank), bank);
      } else {
        FocusedResolves(path[1..], bank);
        ResolvedAppend([path[0]], Focused(path[1..], bank), bank);
      }
    }
  }

  /** How many nodes of the path are looked at together. */
  function Stride(path: Path, bank: nat): nat { if IsBank(path, 0, bank) then 2 else 1 }

  lemma HoldsOrHoldsLater(path: Path, bank: nat)
    requires path != []
    ensures var n := Stride(path, bank);
      && n <= |path|
      && (HoldsBeforeFilter(path, bank) <==>
            (n == 2 && |path| > 2 && path[2] == FILTER) || HoldsBeforeFilter(path[n..], bank))
  {
    var n := Stride(path, bank);
    var rest := path[n..];
    forall i: nat | i + 2 < |rest| ensures IsBank(rest, i, bank) <==> IsBank(path, i + n, bank) {
    }
    if i: nat :| i + 2 < |rest| && IsBank(rest, i, bank) && rest[i + 2] == FILTER {
      assert IsBank(path, i + n, bank) && path[i + n + 2] == FILTER;
    }
    if i: nat :| i + 2 < |path| && IsBank(path, i, bank) && path[i + 2] == FILTER {
      if i >= n {
        assert IsBank(rest, i - n, bank) && rest[i - n + 2] == FILTER;
      }
    }
  }

  lemma {:induction false} DroppedIsShorter(path: Path, bank: nat)
    ensures |Dropped(path, bank)| <= |path|
    ensures HoldsBeforeFilter(path, bank) ==> |Dropped(path, bank)| < |path|
    ensures !HoldsBeforeFilter(path, bank) ==> Dropped(path, bank) == path
    decreases |path|
  {
    if path != [] {
      HoldsOrHoldsLater(path, bank);
      DroppedIsShorter(path[Stride(path, bank)..], bank);
      DroppedOnce(path, bank);
    }
  }

  lemma DroppedOnce(path: Path, bank: nat)
    requires path != []
    ensures var n := Stride(path, bank);
      && path == path[..n] + path[n..]
      && Dropped(path, bank) ==
         (if n == 2 && |path| > 2 && path[2] == FILTER then [] else path[..n]) + Dropped(path[n..], bank)
  {
  }

  lemma {:induction false} FocusedDiffers(path: Path, bank: nat)
    requires FOCUSED_BANK !in path
    ensures Focused(path, bank) == path <==> !Holds(path, bank)
    ensures path != [] ==> Focused(path, bank) != []
    decreases |path|
  {
    if path != [] {
      var n := Stride(path, bank);
      var rest := path[n..];
      if i: nat :| i < |rest| && IsBank(rest, i, bank) {
        assert IsBank(path, i + n, bank);
      }
      if n == 2 {
        FocusedIsShorter(path, bank);
        if |path| > 2 && path[2] == FILTER {
          FocusedIsShorter(rest, bank);
          FocusedDiffers(rest, bank);
        }
      } else {
        FocusedDiffers(rest, bank);
        if i: nat :| i < |path| && IsBank(path, i, bank) {
          assert IsBank(rest, i - 1, bank);
        }
        assert path == [path[0]] + rest;
      }
    }
  }

  lemma {:induction false} FocusedIsShorter(path: Path, bank: nat)
    ensures |Focused(path, bank)| <= |path|
    decreases |path|
  {
    if path != [] {
      FocusedIsShorter(path[Stride(path, bank)..], bank);
    }
  }

  // The abbreviation of the text, token by token

  /** The tokens that are left when a bank without a number is taken out in front of a filter. */
  function Shortened(parts: seq<string>): (r: seq<string>)
    ensures |r| <= |parts|
  {
    if parts == [] then []
    else if |parts| > 2 && parts[0] == "bank" && parts[1] == "filter" then Shortened(parts[1..])
    else [parts[0]] + Shortened(parts[1..])
  }

  /** No token has a dot in it, and a filter is followed by something else than a keyword. */
  predicate Printed(parts: seq<string>) {
    && (forall i :: 0 <= i < |parts| ==> NoDot(parts[i]))
    && (forall i :: 0 <= i < |parts| && parts[i] == "filter" ==>
          i + 1 < |parts| && parts[i + 1] != "bank" && parts[i + 1] != "filter")
  }

  function Dotted(parts: seq<string>): string {
    if parts == [] then "" else ['.'] + parts[0] + Dotted(parts[1..])
  }

  lemma {:induction false} JoinIsDotted(parts: seq<string>)
    requires parts != []
    ensures Join(parts) == parts[0] + Dotted(parts[1..])
    decreases |parts|
  {
    if |parts| > 1 {
      JoinIsDotted(parts[1..]);
      assert parts[1..][1..] == parts[2..];
      assert parts[0] + "." + Join(parts[1..]) == parts[0] + (['.'] + parts[1] + Dotted(parts[2..]));
    } else {
      assert parts[0] + "" == parts[0];
    }
  }

  const BARE_FILTER: string := ".bank.filter."
  const FILTER_ONLY: string := ".filter."

  /** Where the pattern does not start, one character is kept. */
  lemma ReplaceStep(text: string, pattern: string, replacement: string)
    requires pattern != "" && text != "" && (|text| >= |pattern| ==> text[..|pattern|] != pattern)
    ensures Replace(text, pattern, replacement) == [text[0]] + Replace(text[1..], pattern, replacement)
  {
    if |text| < |pattern| {
      assert text == [text[0]] + text[1..];
    }
  }

  /** Nothing is replaced within a token. */
  lemma {:induction false} ReplaceWord(token: string, rest: string, pattern: string, replacement: string)
    requires NoDot(token) && pattern != "" && pattern[0] == '.'
    ensures Replace(token + rest, pattern, replacement) == token + Replace(rest, pattern, replacement)
    decreases |token|
  {
    var text := token + rest;
    if token == "" {
      EmptyFront(rest, Replace(rest, pattern, replacement));
    } else {
      assert text[0] == token[0] && text[1..] == token[1..] + rest;
      ReplaceWord(token[1..], rest, pattern, replacement);
      assert |text| >= |pattern| ==> text[..|pattern|][0] == token[0];
      ReplaceStep(text, pattern, replacement);
      Plus([token[0]], token[1..], Replace(rest, pattern, replacement));
      assert [token[0]] + token[1..] == token;
    }
  }

  lemma DottedIsJoined(parts: seq<string>)
    ensures Dotted(parts) == Join([""] + parts)
  {
    JoinIsDotted([""] + parts);
    assert ([""] + parts)[1..] == parts;
    assert "" + Dotted(parts) == Dotted(parts);
  }

  lemma Plus(a: string, b: string, c: string)
    ensures a + (b + c) == (a + b) + c
  {
  }

  /** The text of the tokens behind the first. */
  lemma SplitsAsTokens(parts: seq<string>)
    requires forall i :: 0 <= i < |parts| ==> NoDot(parts[i])
    ensures Split(Dotted(parts)) == [""] + parts
  {
    DottedIsJoined(parts);
    SplitJoin([""] + parts);
  }

  lemma PatternSplits(after: string)
    ensures Split(BARE_FILTER + after) == ["", "bank", "filter"] + Split(after)
  {
    BareBankSplits("", after);
    EmptyFront(BARE_FILTER, "");
    assert "" + ".bank.filter." + after == BARE_FILTER + after;
    assert Split("") == [""];
    assert [""] + (["bank"] + (["filter"] + Split(after))) == ["", "bank", "filter"] + Split(after);
  }

  /** The pattern is found only where a bank without a number stands in front of a filter. */
  lemma PatternIsBareBank(parts: seq<string>, after: string)
    requires Printed(parts) && Dotted(parts) == BARE_FILTER + after
    ensures |parts| > 2 && parts[0] == "bank" && parts[1] == "filter"
  {
    SplitsAsTokens(parts);
    PatternSplits(after);
    FirstTokens(parts, Split(after));
  }

  lemma FirstTokens(parts: seq<string>, more: seq<string>)
    requires [""] + parts == ["", "bank", "filter"] + more && more != []
    ensures |parts| > 2 && parts[0] == "bank" && parts[1] == "filter"
  {
    assert parts[0] == ([""] + parts)[1] && parts[1] == ([""] + parts)[2];
  }

  lemma StartsWithPattern(parts: seq<string>)
    requires Printed(parts) && |parts| > 2 && parts[0] == "bank" && parts[1] == "filter"
    ensures Dotted(parts) == BARE_FILTER + (parts[2] + Dotted(parts[3..]))
  {
    var tail := parts[2] + Dotted(parts[3..]);
    ThreeDotted(parts);
    TextAroundBank("", tail);
    EmptyFront(BARE_FILTER, ['.']);
  }

  lemma ThreeDotted(parts: seq<string>)
    requires |parts| > 2
    ensures Dotted(parts) ==
      ['.'] + (parts[0] + ['.'] + (parts[1] + ['.'] + (parts[2] + Dotted(parts[3..]))))
  {
    assert parts[1..][1..] == parts[2..] && parts[2..][1..] == parts[3..];
    var tail := parts[2] + Dotted(parts[3..]);
    DottedStep(parts[2..]);
    DottedStep(parts[1..]);
    DottedStep(parts);
    Plus(parts[1], ['.'], tail);
    Plus(parts[0], ['.'], parts[1] + ['.'] + tail);
  }

  lemma DottedStep(parts: seq<string>)
    requires parts != []
    ensures Dotted(parts) == ['.'] + (parts[0] + Dotted(parts[1..]))
  {
    Plus(['.'], parts[0], Dotted(parts[1..]));
  }

  lemma EmptyFront(a: string, b: string)
    ensures "" + a == a && "" + b == b
  {
  }

  lemma ShortenedKeeps(parts: seq<string>)
    requires parts != [] && !(|parts| > 2 && parts[0] == "bank" && parts[1] == "filter")
    ensures Shortened(parts) == [parts[0]] + Shortened(parts[1..])
  {
  }

  lemma Pair(a: string, b: string, more: seq<string>)
    ensures [a] + ([b] + more) == [a, b] + more
  {
  }

  lemma ShortenedPair(parts: seq<string>)
    requires |parts| > 1 && parts[1] != "filter" && (parts[0] == "filter" || parts[0] == "bank") && parts[1] != "bank"
    ensures Shortened(parts) == [parts[0], parts[1]] + Shortened(parts[2..])
  {
    KeywordsDiffer();
    ShortenedKeeps(parts);
    ShortenedKeeps(parts[1..]);
    assert parts[1..][1..] == parts[2..];
    Pair(parts[0], parts[1], Shortened(parts[2..]));
  }

  lemma KeywordsDiffer()
    ensures "filter" != "bank"
  {
    assert "filter"[0] != "bank"[0];
  }

  /** The replacement in the text of the tokens is the abbreviation of the tokens. */
  lemma {:induction false} ReplaceDotted(parts: seq<string>)
    requires Printed(parts)
    ensures Replace(Dotted(parts), BARE_FILTER, FILTER_ONLY) == Dotted(Shortened(parts))
    decreases |parts|
  {
    if parts != [] {
      if |parts| > 2 && parts[0] == "bank" && parts[1] == "filter" {
        ReplaceDotted(parts[3..]);
        BareFilterIsReplaced(parts);
      } else {
        ReplaceDotted(parts[1..]);
        ReplaceOther(parts);
        ShortenedKeeps(parts);
        assert ([parts[0]] + Shortened(parts[1..]))[1..] == Shortened(parts[1..]);
      }
    }
  }

  lemma BareFilterIsReplaced(parts: seq<string>)
    requires Printed(parts) && |parts| > 2 && parts[0] == "bank" && parts[1] == "filter"
    requires Replace(Dotted(parts[3..]), BARE_FILTER, FILTER_ONLY) == Dotted(Shortened(parts[3..]))
    ensures Replace(Dotted(parts), BARE_FILTER, FILTER_ONLY) == Dotted(Shortened(parts))
  {
    ReplacePattern(parts);
    ShortenedBareFilter(parts);
    DottedFilter(parts[1], parts[2], Shortened(parts[3..]));
  }

  lemma ShortenedBareFilter(parts: seq<string>)
    requires Printed(parts) && |parts| > 2 && parts[0] == "bank" && parts[1] == "filter"
    ensures Shortened(parts) == [parts[1], parts[2]] + Shortened(parts[3..])
  {
    KeywordsDiffer();
    ShortenedPair(parts[1..]);
    assert parts[1..][2..] == parts[3..];
  }

  lemma DottedFilter(name: string, number: string, more: seq<string>)
    requires name == "filter"
    ensures Dotted([name, number] + more) == FILTER_ONLY + (number + Dotted(more))
  {
    DottedPair(name, number, more);
    assert ['.'] + (name + ['.']) == FILTER_ONLY;
  }

  lemma DottedPair(a: string, b: string, more: seq<string>)
    ensures Dotted([a, b] + more) == ['.'] + (a + ['.']) + (b + Dotted(more))
  {
    var all := [a, b] + more;
    assert all[1..][1..] == more && all[1..][0] == b;
    DottedStep(all);
    DottedStep(all[1..]);
    Plus(a, ['.'], b + Dotted(more));
    Plus(['.'], a + ['.'], b + Dotted(more));
  }

  lemma ReplacePattern(parts: seq<string>)
    requires Printed(parts) && |parts| > 2 && parts[0] == "bank" && parts[1] == "filter"
    ensures Replace(Dotted(parts), BARE_FILTER, FILTER_ONLY) ==
      FILTER_ONLY + (parts[2] + Replace(Dotted(parts[3..]), BARE_FILTER, FILTER_ONLY))
  {
    var text, tail := Dotted(parts), parts[2] + Dotted(parts[3..]);
    StartsWithPattern(parts);
    assert text[..|BARE_FILTER|] == BARE_FILTER && text[|BARE_FILTER|..] == tail;
    ReplaceWord(parts[2], Dotted(parts[3..]), BARE_FILTER, FILTER_ONLY);
  }

  lemma NoPatternAhead(parts: seq<string>)
    requires Printed(parts) && !(|parts| > 2 && parts[0] == "bank" && parts[1] == "filter")
    ensures var text := Dotted(parts); |text| >= |BARE_FILTER| ==> text[..|BARE_FILTER|] != BARE_FILTER
  {
    var text := Dotted(parts);
    if |text| >= |BARE_FILTER| && text[..|BARE_FILTER|] == BARE_FILTER {
      assert text == text[..|BARE_FILTER|] + text[|BARE_FILTER|..];
      PatternIsBareBank(parts, text[|BARE_FILTER|..]);
    }
  }

  lemma ReplaceOther(parts: seq<string>)
    requires Printed(parts) && parts != [] && !(|parts| > 2 && parts[0] == "bank" && parts[1] == "filter")
    ensures Replace(Dotted(parts), BARE_FILTER, FILTER_ONLY) ==
      ['.'] + parts[0] + Replace(Dotted(parts[1..]), BARE_FILTER, FILTER_ONLY)
  {
    NoPatternAhead(parts);
    DottedStep(parts);
    DotFirst(Dotted(parts), parts[0] + Dotted(parts[1..]));
    ReplaceStep(Dotted(parts), BARE_FILTER, FILTER_ONLY);
    ReplaceWord(parts[0], Dotted(parts[1..]), BARE_FILTER, FILTER_ONLY);
    Plus(['.'], parts[0], Replace(Dotted(parts[1..]), BARE_FILTER, FILTER_ONLY));
  }

  lemma DotFirst(text: string, tail: string)
    requires text == ['.'] + tail
    ensures text != "" && text[0] == '.' && text[1..] == tail
  {
  }

  // Reading the shortened tokens

  /** The paths lead through the same detectors and filters; the decoder does not look at anything else. */
  predicate Alike(path: Path, other: Path) {
    && (DETECTOR in path <==> DETECTOR in other) && (INPUT_DETECTOR in path <==> INPUT_DETECTOR in other)
    && (OUTPUT_DETECTOR in path <==> OUTPUT_DETECTOR in other) && (FILTER in path <==> FILTER in other)
  }

  lemma AlikeAppend(path: Path, other: Path, nodes: Path)
    requires Alike(path, other)
    ensures Alike(path + nodes, other + nodes)
  {
  }

  lemma BankIsIgnored(path: Path, other: Path, bank: nat)
    requires Alike(path, other) && bank < BANK_COUNT
    ensures Alike(path + [EQUALIZER_BANK, FIRST_BANK + bank], other)
    ensures Alike(path + [EQUALIZER_BANK, FIRST_BANK + bank], other + [EQUALIZER_BANK, FOCUSED_BANK])
  {
    var nodes := [EQUALIZER_BANK, FIRST_BANK + bank];
    assert forall x :: x in nodes ==> x !in {DETECTOR, INPUT_DETECTOR, OUTPUT_DETECTOR, FILTER};
    var focused := [EQUALIZER_BANK, FOCUSED_BANK];
    assert forall x :: x in focused ==> x !in {DETECTOR, INPUT_DETECTOR, OUTPUT_DETECTOR, FILTER};
  }

  lemma SegmentAlike(atoms: seq<Atom>, path: Path, other: Path, nodes: Path, count: nat)
    requires atoms != [] && Alike(path, other) && Segment(atoms, path) == Some((path + nodes, count))
    ensures Segment(atoms, other) == Some((other + nodes, count))
  {
    FirstNode(atoms, path, nodes);
  }

  /** The tokens of a path without focused banks, for an observed bank. */
  function Bare(path: Path): Option<seq<string>> {
    if path == [] then Some([])
    else if path[0] == INSTANCE || path[0] == DSP then Bare(path[1..])
    else if path[0] == BANK || path[0] == EQUALIZER_BANK || path[0] == FILTER then
      if |path| < 2 then None
      else if path[1] == FOCUSED_BANK then Prefixed(["bank"], Bare(path[2..]))
      else Prefixed(Indexed(path[0], path[1], None), Bare(path[2..]))
    else if ToSymbol(path[0]).None? then None
    else Prefixed([ToSymbol(path[0]).value], Bare(path[1..]))
  }

  /** The first node and the first token of a path. */
  predicate HeadAgrees(nodes: Path, parts: seq<string>) {
    if nodes == [] then parts == []
    else
      && parts != [] && IsWord(parts[0])
      && (parts[0] == "filter" <==> nodes[0] == FILTER) && (parts[0] == "filter" ==> |parts| > 1)
  }

  predicate IsKeyword(token: string) { token == "bank" || token == "filter" }

  lemma SymbolsAreNoKeywords(node: nat)
    requires ToSymbol(node).Some?
    ensures !IsKeyword(ToSymbol(node).value)
  {
    var name := ToSymbol(node).value;
    if |name| == 4 {
      assert name[2] != 'n';
    } else if |name| == 6 {
      assert name[0] != 'f';
    }
  }

  lemma PieceTokens(nodes: Path, piece: seq<string>)
    requires IsSegment(nodes, piece)
    ensures |piece| == |nodes| && IsWord(piece[0]) && NoDot(piece[|piece| - 1]) && !IsKeyword(piece[|piece| - 1])
    ensures |piece| == 2 ==> piece[0] == if nodes[0] == FILTER then "filter" else "bank"
  {
    KeywordsDiffer();
    if |nodes| == 1 {
      SymbolsAreNoKeywords(nodes[0]);
    } else if nodes[0] == FILTER {
      SingleDigit(nodes[1] - FIRST_FILTER + 1);
    } else {
      SingleDigit(nodes[1] - FIRST_BANK);
    }
  }

  lemma PieceIsPrinted(nodes: Path, piece: seq<string>, later: Path, rest: seq<string>)
    requires IsSegment(nodes, piece) && Printed(rest)
    ensures Printed(piece + rest) && HeadAgrees(nodes + later, piece + rest)
  {
    KeywordsDiffer();
    PieceTokens(nodes, piece);
    var parts := piece + rest;
    forall i | 0 <= i < |parts|
      ensures NoDot(parts[i])
      ensures parts[i] == "filter" ==> i + 1 < |parts| && !IsKeyword(parts[i + 1])
    {
      if i >= |piece| {
        assert parts[i] == rest[i - |piece|];
      } else if |piece| == 2 && i == 0 {
        assert parts[1] == piece[1];
      }
    }
  }

  lemma PieceIsKept(nodes: Path, piece: seq<string>, rest: seq<string>)
    requires IsSegment(nodes, piece)
    ensures Shortened(piece + rest) == piece + Shortened(rest)
  {
    PieceTokens(nodes, piece);
    var parts := piece + rest;
    if |piece| == 1 {
      ShortenedKeeps(parts);
      assert parts[1..] == rest;
    } else {
      assert parts[2..] == rest;
      ShortenedPair(parts);
    }
  }

  /** A segment other than the observed bank is read as it is. */
  lemma PieceIsOther(nodes: Path, piece: seq<string>, later: Path, bank: nat)
    requires IsSegment(nodes, piece) && nodes != [EQUALIZER_BANK, FIRST_BANK + bank]
    ensures Focused(nodes + later, bank) == nodes + Focused(later, bank)
  {
    var path := nodes + later;
    assert path[..|nodes|] == nodes && path[|nodes|..] == later && path[0] == nodes[0];
    if |nodes| == 2 {
      assert path[1] == nodes[1] && path[1..][1..] == later;
      assert Focused(path[1..], bank) == [nodes[1]] + Focused(later, bank);
      assert [nodes[0]] + ([nodes[1]] + Focused(later, bank)) == nodes + Focused(later, bank);
    }
  }

  /** It is printed as without an observed bank. */
  lemma PieceIsPrintedAlike(nodes: Path, piece: seq<string>, later: Path, bank: nat)
    requires IsSegment(nodes, piece) && nodes != [EQUALIZER_BANK, FIRST_BANK + bank]
    ensures Parts(nodes + later, Some(bank)) == Prefixed(piece, Parts(later, Some(bank)))
    ensures Bare(nodes + later) == Prefixed(piece, Bare(later))
  {
    var path := nodes + later;
    assert path[|nodes|..] == later && path[0] == nodes[0] && path[|nodes| - 1] == nodes[|nodes| - 1];
  }

  predicate FilterFirst(nodes: Path) { nodes != [] && nodes[0] == FILTER }

  /** What has been read of a path so far, and how it is printed for an observed bank. */
  ghost predicate ReadsAs(atoms: seq<Atom>, path: Path, other: Path, bank: nat, nodes: Path, parts: seq<string>) {
    && Segments(atoms, path) == Some(path + nodes) && Parts(nodes, Some(bank)) == Some(parts)
    && Printed(parts) && HeadAgrees(nodes, parts) && (atoms == [] ==> nodes == [])
    && (FilterFirst(nodes) <==> atoms != [] && atoms[0] == Symbol("filter"))
    && Bare(Focused(nodes, bank)) == Some(Shortened(parts))
    && Segments(ToAtoms(Shortened(parts)), other) == Some(other + Focused(nodes, bank))
  }

  /** What one turn of the loop appends to the path. */
  function Added(atoms: seq<Atom>, path: Path): (nodes: Path)
    requires atoms != [] && Segment(atoms, path).Some?
    ensures Segment(atoms, path).value.0 == path + nodes && nodes != []
    ensures nodes[0] == FILTER <==> atoms[0] == Symbol("filter")
    ensures |nodes| == 2 && nodes[0] == EQUALIZER_BANK ==>
      nodes[1] == FOCUSED_BANK || nodes[1] < FIRST_BANK + BANK_COUNT
    ensures IsFocusedTurn(atoms) ==> FOCUSED_BANK in nodes
  {
    var name := atoms[0].name;
    KeywordsAreNoNodes();
    if ToDetectorNode(name).Some? then [ToDetectorNode(name).value]
    else if name == "filter" then [FILTER, FIRST_FILTER + ReadIndex(atoms[1..], FilterCount(path), 1).value]
    else if name == "bank" then
      if IsFocusedTurn(atoms) then [EQUALIZER_BANK, FOCUSED_BANK]
      else [EQUALIZER_BANK, FIRST_BANK + ReadIndex(atoms[1..], BANK_COUNT, 0).value]
    else
      NodesArePlain(name);
      [ToNode(name).value]
  }

  lemma FirstNode(atoms: seq<Atom>, path: Path, nodes: Path)
    requires atoms != [] && Segment(atoms, path).Some? && Segment(atoms, path).value.0 == path + nodes
    ensures nodes == Added(atoms, path)
  {
    assert nodes == (path + nodes)[|path|..] && Added(atoms, path) == (path + Added(atoms, path))[|path|..];
  }

  lemma OtherTurn(atoms: seq<Atom>, path: Path, other: Path, bank: nat, nodes: Path, piece: seq<string>,
                  later: Path, rest: seq<string>)
    requires atoms != [] && Segment(atoms, path).Some? && Alike(path, other)
    requires SameTurn(atoms, path, later, Shortened(rest), nodes, piece)
    requires nodes != [EQUALIZER_BANK, FIRST_BANK + bank]
    requires ReadsAs(atoms[Segment(atoms, path).value.1..], path + nodes, other + nodes, bank, later, rest)
    ensures ReadsAs(atoms, path, other, bank, nodes + later, piece + rest)
  {
    PieceIsOther(nodes, piece, later, bank);
    PieceIsPrintedAlike(nodes, piece, later, bank);
    PieceIsPrintedAlike(nodes, piece, Focused(later, bank), bank);
    PieceIsPrinted(nodes, piece, later, rest);
    PieceIsKept(nodes, piece, rest);
    FirstNode(atoms, path, nodes);
    Associate(path, nodes, later);
    Associate(other, nodes, Focused(later, bank));
    SegmentAlike(ToAtoms(piece + Shortened(rest)), path, other, nodes, |piece|);
    OneTurn(piece, Shortened(rest), other, other + nodes);
  }

  lemma ShortenedHead(nodes: Path, parts: seq<string>)
    requires HeadAgrees(nodes, parts)
    ensures Shortened(parts) != [] ==> IsWord(Shortened(parts)[0])
    decreases |parts|
  {
    if parts != [] {
      KeywordsAreTokens();
      if |parts| > 2 && parts[0] == "bank" && parts[1] == "filter" {
        KeywordsDiffer();
        ShortenedKeeps(parts[1..]);
      } else {
        ShortenedKeeps(parts);
      }
    }
  }

  lemma KeywordsAreTokens()
    ensures IsWord("bank") && IsWord("filter")
  {
  }

  /** The tokens that are left for the observed bank in front of `later`. */
  function BankPiece(later: Path): seq<string> {
    if FilterFirst(later) then [] else ["bank"]
  }

  function BankNodes(later: Path): Path {
    if FilterFirst(later) then [] else [EQUALIZER_BANK, FOCUSED_BANK]
  }

  lemma BankIsPrinted(later: Path, rest: seq<string>, bank: nat)
    requires HeadAgrees(later, rest) && Printed(rest) && bank < BANK_COUNT
    ensures var nodes := [EQUALIZER_BANK, FIRST_BANK + bank];
      && Parts(nodes + later, Some(bank)) == Prefixed(["bank"], Parts(later, Some(bank)))
      && Focused(nodes + later, bank) == BankNodes(later) + Focused(later, bank)
      && Printed(["bank"] + rest) && HeadAgrees(nodes + later, ["bank"] + rest)
      && Shortened(["bank"] + rest) == BankPiece(later) + Shortened(rest)
  {
    var path, parts := [EQUALIZER_BANK, FIRST_BANK + bank] + later, ["bank"] + rest;
    assert path[2..] == later && parts[1..] == rest;
    KeywordsAreTokens();
    KeywordsDiffer();
    if FilterFirst(later) {
      assert path[2] == FILTER && parts[1] == "filter" && |parts| > 2;
      assert [] + Focused(later, bank) == Focused(later, bank) && [] + Shortened(rest) == Shortened(rest);
    } else {
      assert rest != [] ==> parts[1] != "filter";
      ShortenedKeeps(parts);
    }
    forall i | 0 <= i < |parts| && parts[i] == "filter" ensures i + 1 < |parts| && !IsKeyword(parts[i + 1]) {
      assert parts[i] == rest[i - 1];
    }
  }

  /** A bank without a number is read as the focused one. */
  lemma BareBankReads(rest: seq<string>, other: Path)
    requires rest != [] ==> IsWord(rest[0])
    ensures Segments(ToAtoms(["bank"] + rest), other) == Segments(ToAtoms(rest), other + [EQUALIZER_BANK, FOCUSED_BANK])
  {
    KeywordsAreNoNodes();
    KeywordsAreWords();
    var atoms := ToAtoms(["bank"] + rest);
    assert atoms[1..] == ToAtoms(rest);
    if rest != [] {
      WordsAreSymbols(rest[0]);
    }
  }

  lemma ObservedTurn(atoms: seq<Atom>, path: Path, other: Path, bank: nat, later: Path, rest: seq<string>)
    requires atoms != [] && Alike(path, other) && bank < BANK_COUNT
    requires var nodes := [EQUALIZER_BANK, FIRST_BANK + bank];
      && Segment(atoms, path).Some? && Segment(atoms, path).value.0 == path + nodes
      && ReadsAs(atoms[Segment(atoms, path).value.1..], path + nodes, other + BankNodes(later), bank, later, rest)
    ensures ReadsAs(atoms, path, other, bank, [EQUALIZER_BANK, FIRST_BANK + bank] + later, ["bank"] + rest)
  {
    var nodes, focused := [EQUALIZER_BANK, FIRST_BANK + bank], Focused(later, bank);
    FirstNode(atoms, path, nodes);
    BankIsPrinted(later, rest, bank);
    ShortenedHead(later, rest);
    Associate(path, nodes, later);
    Associate(other, BankNodes(later), focused);
    if BankPiece(later) == [] {
      assert [] + Shortened(rest) == Shortened(rest) && other + [] == other && [] + focused == focused;
    } else {
      BareBankReads(Shortened(rest), other);
      BareFocused(focused);
    }
  }

  lemma BareFocused(more: Path)
    ensures Bare([EQUALIZER_BANK, FOCUSED_BANK] + more) == Prefixed(["bank"], Bare(more))
  {
    var path := [EQUALIZER_BANK, FOCUSED_BANK] + more;
    assert path[0] == EQUALIZER_BANK && path[1] == FOCUSED_BANK && path[2..] == more;
  }

  /** The segments of a path without focused banks, printed for an observed bank and read again. `other` is
      what has been read in place of `path`. */
  lemma {:induction false} SegmentsRead(atoms: seq<Atom>, path: Path, other: Path, bank: nat)
    returns (nodes: Path, parts: seq<string>)
    requires Segments(atoms, path).Some? && FOCUSED_BANK !in Segments(atoms, path).value
    requires Alike(path, other)
    ensures ReadsAs(atoms, path, other, bank, nodes, parts)
    decreases |atoms|
  {
    if atoms == [] {
      nodes, parts := [], [];
      assert path + [] == path && other + [] == other;
    } else {
      var added, more := Added(atoms, path), atoms[Segment(atoms, path).value.1..];
      AlikeAppend(path, other, added);
      if added == [EQUALIZER_BANK, FIRST_BANK + bank] {
        BankIsIgnored(path, other, bank);
        var front := more != [] && more[0] == Symbol("filter");
        var later, rest := SegmentsRead(more, path + added,
                                        if front then other + [] else other + [EQUALIZER_BANK, FOCUSED_BANK], bank);
        ObservedTurn(atoms, path, other, bank, later, rest);
        nodes, parts := added + later, ["bank"] + rest;
      } else {
        var later, rest := SegmentsRead(more, path + added, other + added, bank);
        NoFocusedTurn(atoms, path, later);
        ShortenedNothing(more, later, rest);
        var firstNodes, piece := SegmentRoundTrip(atoms, path, later, Shortened(rest));
        FirstNode(atoms, path, firstNodes);
        OtherTurn(atoms, path, other, bank, added, piece, later, rest);
        nodes, parts := added + later, piece + rest;
      }
    }
  }

  lemma NoFocusedTurn(atoms: seq<Atom>, path: Path, later: Path)
    requires atoms != [] && Segment(atoms, path).Some?
    requires FOCUSED_BANK !in path + Added(atoms, path) + later
    ensures !IsFocusedTurn(atoms)
  {
    assert forall x :: x in Added(atoms, path) ==> x in path + Added(atoms, path) + later;
  }

  lemma ShortenedNothing(atoms: seq<Atom>, nodes: Path, parts: seq<string>)
    requires HeadAgrees(nodes, parts) && (atoms == [] ==> nodes == [])
    ensures atoms == [] ==> Shortened(parts) == []
  {
  }

  // Whole paths

  lemma HoldsLater(path: Path, bank: nat, n: nat)
    requires n <= |path| && !Holds(path, bank)
    ensures !Holds(path[n..], bank)
  {
    if i: nat :| i < |path[n..]| && IsBank(path[n..], i, bank) {
      assert IsBank(path, i + n, bank);
    }
  }

  lemma {:induction false} PrintedAlike(path: Path, bank: nat)
    requires !Holds(path, bank) && FOCUSED_BANK !in path
    ensures Parts(path, Some(bank)) == Parts(path, None) == Bare(path)
    decreases |path|
  {
    if path != [] {
      HoldsLater(path, bank, 1);
      PrintedAlike(path[1..], bank);
      assert !IsBank(path, 0, bank);
      if |path| > 1 {
        HoldsLater(path, bank, 2);
        PrintedAlike(path[2..], bank);
      }
    }
  }

  /** How a path is printed for an observed bank, and read again. */
  ghost predicate ReadsForTheObserver(path: Path, bank: nat) {
    && Encoded(path, Some(bank)).Some? && Bare(Focused(path, bank)).Some?
    && Bare(Focused(path, bank)).value != [] && Encoded(path, Some(bank)).value == Join(Bare(Focused(path, bank)).value)
    && Decoded(Read(Encoded(path, Some(bank)).value), false) == Some(Focused(path, bank))
  }

  /** Without the observed bank in it, a path is printed as without an observed bank. */
  lemma OthersArePrintedAlike(atoms: seq<Atom>, bank: nat)
    requires Decoded(atoms, false).Some? && FOCUSED_BANK !in Decoded(atoms, false).value
    requires !Holds(Decoded(atoms, false).value, bank)
    ensures var path := Decoded(atoms, false).value;
      Encoded(path, Some(bank)) == Encoded(path, None) && ReadsForTheObserver(path, bank)
  {
    var path := Decoded(atoms, false).value;
    PrintedAlike(path, bank);
    FocusedDiffers(path, bank);
    RoundTrip(atoms);
    var parts := PartsRoundTrip(atoms);
    forall i: nat ensures !Occurs(Join(parts), ".bank.filter.", i) {
      NoBareBank(parts, i);
    }
    NothingToReplace(Join(parts), ".bank.filter.", ".filter.");
  }

  lemma {:induction false} ShortenedIsPlain(parts: seq<string>)
    requires forall i :: 0 <= i < |parts| ==> NoDot(parts[i])
    ensures forall i :: 0 <= i < |Shortened(parts)| ==> NoDot(Shortened(parts)[i])
    decreases |parts|
  {
    if parts != [] {
      ShortenedIsPlain(parts[1..]);
    }
  }

  /** The text of a device path. */
  lemma DeviceText(name: string, parts: seq<string>)
    requires IsWord(name) && Printed(parts)
    ensures Replace(Join([name] + parts), BARE_FILTER, FILTER_ONLY) == Join([name] + Shortened(parts))
    ensures Split(Join([name] + Shortened(parts))) == [name] + Shortened(parts)
  {
    JoinIsDotted([name] + parts);
    JoinIsDotted([name] + Shortened(parts));
    assert ([name] + parts)[1..] == parts && ([name] + Shortened(parts))[1..] == Shortened(parts);
    ReplaceWord(name, Dotted(parts), BARE_FILTER, FILTER_ONLY);
    ReplaceDotted(parts);
    ShortenedIsPlain(parts);
    SplitJoin([name] + Shortened(parts));
  }

  /** The first two nodes of a device path are printed as the name of the device, and read as they are. */
  lemma DeviceIsPrinted(device: nat, nodes: Path, observedBank: Option<nat>)
    requires IsPlainNode(device)
    ensures Parts([DSP, device] + nodes, observedBank) ==
      Prefixed([ToSymbol(device).value], Parts(nodes, observedBank))
  {
    var path := [DSP, device] + nodes;
    assert path[0] == DSP && path[1..] == [device] + nodes;
    assert ([device] + nodes)[0] == device && ([device] + nodes)[1..] == nodes;
  }

  lemma DeviceIsBare(device: nat, nodes: Path)
    requires IsPlainNode(device)
    ensures Bare([DSP, device] + nodes) == Prefixed([ToSymbol(device).value], Bare(nodes))
  {
    var path := [DSP, device] + nodes;
    assert path[0] == DSP && path[1..] == [device] + nodes;
    assert ([device] + nodes)[0] == device && ([device] + nodes)[1..] == nodes;
  }

  lemma DeviceIsNotObserved(device: nat, nodes: Path, bank: nat)
    requires IsPlainNode(device)
    ensures Focused([DSP, device] + nodes, bank) == [DSP, device] + Focused(nodes, bank)
  {
    NodeIsNotObserved(device, nodes, bank);
    NodeIsNotObserved(DSP, [device] + nodes, bank);
    assert [DSP, device] + nodes == [DSP] + ([device] + nodes);
    assert [DSP] + ([device] + Focused(nodes, bank)) == [DSP, device] + Focused(nodes, bank);
  }

  lemma NodeIsNotObserved(node: nat, rest: Path, bank: nat)
    requires node != EQUALIZER_BANK
    ensures Focused([node] + rest, bank) == [node] + Focused(rest, bank)
  {
    assert ([node] + rest)[1..] == rest;
  }

  lemma DeviceReads(atoms: seq<Atom>, bank: nat)
    requires Decoded(atoms, false).Some? && FOCUSED_BANK !in Decoded(atoms, false).value
    requires ToDeviceNode(atoms[0].name).Some?
    ensures ReadsForTheObserver(Decoded(atoms, false).value, bank)
  {
    var name, path := atoms[0].name, Decoded(atoms, false).value;
    var device := ToDeviceNode(name).value;
    KeywordsAreNoNodes();
    DevicesArePlain(name);
    DevicesPrintAsTheirNames(name);
    WordsAreSymbols(name);
    DeviceDecodes(atoms, name, device);
    var nodes, parts := SegmentsRead(atoms[1..], [DSP, device], [DSP, device], bank);
    DeviceIsPrinted(device, nodes, Some(bank));
    DeviceIsBare(device, Focused(nodes, bank));
    DeviceIsNotObserved(device, nodes, bank);
    DeviceText(name, parts);
    FocusedDiffers(nodes, bank);
    var tokens := [name] + Shortened(parts);
    assert ToAtoms(tokens)[1..] == ToAtoms(Shortened(parts));
    DeviceDecodes(ToAtoms(tokens), name, device);
  }

  /** Every value path without a focused bank is printed for every observed bank. Splitting the text and
      decoding it gives the path with that bank focused, or without it in front of a filter. */
  lemma ObserversReadPaths(atoms: seq<Atom>, bank: nat)
    requires Decoded(atoms, false).Some? && FOCUSED_BANK !in Decoded(atoms, false).value
    ensures ReadsForTheObserver(Decoded(atoms, false).value, bank)
  {
    if ToDeviceNode(atoms[0].name).Some? {
      DeviceReads(atoms, bank);
    } else {
      var path := Decoded(atoms, false).value;
      NodesArePlain("label");
      NodesArePlain("mute");
      NodesArePlain("solo");
      assert !Holds(path, bank) by {
        assert forall i :: 0 <= i < |path| ==> path[i] != EQUALIZER_BANK;
      }
      OthersArePrintedAlike(atoms, bank);
    }
  }

  /** The observed bank makes a difference exactly for the paths that hold it. */
  lemma AbbreviatedExactly(atoms: seq<Atom>, bank: nat)
    requires Decoded(atoms, false).Some? && FOCUSED_BANK !in Decoded(atoms, false).value
    ensures var path := Decoded(atoms, false).value;
      Encoded(path, Some(bank)) == Encoded(path, None) <==> !Holds(path, bank)
  {
    var path := Decoded(atoms, false).value;
    FocusedDiffers(path, bank);
    if Holds(path, bank) {
      RoundTrip(atoms);
      ObserversReadPaths(atoms, bank);
    } else {
      OthersArePrintedAlike(atoms, bank);
    }
  }

  /** Printed for an observed bank, read, and resolved on that bank, a path comes back exactly when the bank
      does not stand in front of a filter in it; otherwise these segments are missing. */
  lemma ResolvedExactly(atoms: seq<Atom>, bank: nat)
    requires Decoded(atoms, false).Some? && FOCUSED_BANK !in Decoded(atoms, false).value
    ensures var path := Decoded(atoms, false).value;
      && Encoded(path, Some(bank)).Some?
      && var read := Decoded(Read(Encoded(path, Some(bank)).value), false);
      && read.Some? && Resolved(read.value, bank) == Dropped(path, bank)
      && (Resolved(read.value, bank) == path <==> !HoldsBeforeFilter(path, bank))
  {
    var path := Decoded(atoms, false).value;
    ObserversReadPaths(atoms, bank);
    FocusedResolves(path, bank);
    DroppedIsShorter(path, bank);
  }

  // Which paths are told apart

  function FocusAll(path: Path, bank: nat): Path {
    if path == [] then []
    else if IsBank(path, 0, bank) then [EQUALIZER_BANK, FOCUSED_BANK] + FocusAll(path[2..], bank)
    else [path[0]] + FocusAll(path[1..], bank)
  }

  lemma {:induction false} FirstOfDropped(path: Path, bank: nat)
    requires Dropped(path, bank) != [] && Dropped(path, bank)[0] == FIRST_BANK + bank
    ensures path != [] && path[0] == FIRST_BANK + bank
    decreases |path|
  {
    if IsBank(path, 0, bank) && |path| > 2 && path[2] == FILTER {
      FirstOfDropped(path[2..], bank);
    }
  }

  lemma {:induction false} FocusedIsFocusAll(path: Path, bank: nat)
    ensures Focused(path, bank) == FocusAll(Dropped(path, bank), bank)
    decreases |path|
  {
    if path != [] {
      var rest := path[Stride(path, bank)..];
      var dropped := Dropped(rest, bank);
      FocusedIsFocusAll(rest, bank);
      if IsBank(path, 0, bank) {
        FocusAllBank(dropped, bank);
        assert path[..2] == [EQUALIZER_BANK, FIRST_BANK + bank];
      } else {
        if dropped != [] && dropped[0] == FIRST_BANK + bank {
          FirstOfDropped(rest, bank);
        }
        FocusAllOther(path[0], dropped, bank);
      }
    }
  }

  lemma FocusAllBank(rest: Path, bank: nat)
    ensures FocusAll([EQUALIZER_BANK, FIRST_BANK + bank] + rest, bank) ==
      [EQUALIZER_BANK, FOCUSED_BANK] + FocusAll(rest, bank)
    ensures FocusAll([] + rest, bank) == [] + FocusAll(rest, bank)
  {
    assert ([EQUALIZER_BANK, FIRST_BANK + bank] + rest)[2..] == rest;
    assert [] + rest == rest && [] + FocusAll(rest, bank) == FocusAll(rest, bank);
  }

  lemma FocusAllOther(node: nat, rest: Path, bank: nat)
    requires node == EQUALIZER_BANK && rest != [] ==> rest[0] != FIRST_BANK + bank
    ensures FocusAll([node] + rest, bank) == [node] + FocusAll(rest, bank)
  {
    assert ([node] + rest)[1..] == rest;
  }

  /** Two paths are printed alike for an observed bank exactly when they differ at most in that bank in front
      of filters. */
  lemma PrintedAlikeExactly(atoms: seq<Atom>, others: seq<Atom>, bank: nat)
    requires Decoded(atoms, false).Some? && FOCUSED_BANK !in Decoded(atoms, false).value
    requires Decoded(others, false).Some? && FOCUSED_BANK !in Decoded(others, false).value
    ensures var path, other := Decoded(atoms, false).value, Decoded(others, false).value;
      Encoded(path, Some(bank)) == Encoded(other, Some(bank)) <==> Dropped(path, bank) == Dropped(other, bank)
  {
    var path, other := Decoded(atoms, false).value, Decoded(others, false).value;
    ObserversReadPaths(atoms, bank);
    ObserversReadPaths(others, bank);
    FocusedIsFocusAll(path, bank);
    FocusedIsFocusAll(other, bank);
    FocusedResolves(path, bank);
    FocusedResolves(other, bank);
  }

  /** The path leads from a device into one bank. */
  predicate LeadsIntoOneBank(path: Path) {
    && |path| >= 4 && path[0] == DSP && path[1] != EQUALIZER_BANK && path[2] == EQUALIZER_BANK
    && forall i :: 3 <= i < |path| ==> path[i] != EQUALIZER_BANK
  }

  lemma DroppedOfOneBank(path: Path, bank: nat)
    requires LeadsIntoOneBank(path)
    ensures Dropped(path, bank) == if HoldsBeforeFilter(path, bank) then path[..2] + path[4..] else path
    ensures HoldsBeforeFilter(path, bank) ==>
      path[..4] == [DSP, path[1], EQUALIZER_BANK, FIRST_BANK + bank] && |path| > 4 && path[4] == FILTER
  {
    DroppedIsShorter(path, bank);
    if HoldsBeforeFilter(path, bank) {
      var i: nat :| i + 2 < |path| && IsBank(path, i, bank) && path[i + 2] == FILTER;
      assert i == 2;
      var tail := path[4..];
      assert !HoldsBeforeFilter(tail, bank) by {
        assert forall j :: 0 <= j < |tail| ==> tail[j] == path[j + 4];
      }
      DroppedIsShorter(tail, bank);
      assert path[1..][1..] == path[2..] && path[2..][2..] == tail && path[2..][2] == FILTER;
      assert Dropped(path[2..], bank) == tail;
      assert Dropped(path[1..], bank) == [path[1]] + tail;
      assert path[..2] + tail == [path[0]] + ([path[1]] + tail);
    }
  }

  /** The paths of one equalizer, each through one bank, are told apart for every observed bank. */
  lemma BankPathsAreToldApart(atoms: seq<Atom>, others: seq<Atom>, bank: nat)
    requires Decoded(atoms, false).Some? && FOCUSED_BANK !in Decoded(atoms, false).value
    requires Decoded(others, false).Some? && FOCUSED_BANK !in Decoded(others, false).value
    requires LeadsIntoOneBank(Decoded(atoms, false).value) && LeadsIntoOneBank(Decoded(others, false).value)
    ensures var path, other := Decoded(atoms, false).value, Decoded(others, false).value;
      Encoded(path, Some(bank)) == Encoded(other, Some(bank)) <==> path == other
  {
    var path, other := Decoded(atoms, false).value, Decoded(others, false).value;
    PrintedAlikeExactly(atoms, others, bank);
    DroppedOfOneBank(path, bank);
    DroppedOfOneBank(other, bank);
    if Dropped(path, bank) == Dropped(other, bank) {
      TailDecides(path, other, bank);
    }
  }

  lemma TailDecides(path: Path, other: Path, bank: nat)
    requires LeadsIntoOneBank(path) && LeadsIntoOneBank(other) && Dropped(path, bank) == Dropped(other, bank)
    ensures path == other
  {
    DroppedOfOneBank(path, bank);
    DroppedOfOneBank(other, bank);
    if HoldsBeforeFilter(path, bank) && HoldsBeforeFilter(other, bank) {
      assert path == path[..4] + path[4..] && other == other[..4] + other[4..];
      assert path[1] == (path[..2] + path[4..])[1] && other[1] == (other[..2] + other[4..])[1];
      assert path[4..] == (path[..2] + path[4..])[2..] && other[4..] == (other[..2] + other[4..])[2..];
    }
  }

  /** A filter of the observed bank and one outside of any bank are printed alike. */
  lemma FiltersAreConfused() returns (atoms: seq<Atom>, others: seq<Atom>)
    ensures Decoded(atoms, false) == Some([DSP, 13, EQUALIZER_BANK, FIRST_BANK + 2, FILTER, FIRST_FILTER, 24])
    ensures Decoded(others, false) == Some([DSP, 13, FILTER, FIRST_FILTER, 24])
    ensures Encoded(Decoded(atoms, false).value, Some(2)) == Encoded(Decoded(others, false).value, Some(2))
  {
    var tail := [Symbol("filter"), Integer(1), Symbol("frequency")];
    others := [Symbol("equalizer"), Symbol("filter"), Integer(1), Symbol("frequency")];
    atoms := [Symbol("equalizer"), Symbol("bank"), Integer(2)] + tail;
    DecodedFilter(others);
    DecodedBankFilter(atoms, tail);
    ConfusedAreDropped();
    PrintedAlikeExactly(atoms, others, 2);
  }

  lemma ConfusedAreDropped()
    ensures Dropped([DSP, 13, EQUALIZER_BANK, FIRST_BANK + 2, FILTER, FIRST_FILTER, 24], 2) ==
      Dropped([DSP, 13, FILTER, FIRST_FILTER, 24], 2)
  {
    var path, other := [DSP, 13, EQUALIZER_BANK, FIRST_BANK + 2, FILTER, FIRST_FILTER, 24],
                       [DSP, 13, FILTER, FIRST_FILTER, 24];
    DroppedOfOneBank(path, 2);
    assert IsBank(path, 2, 2);
    NothingDropped(other);
    assert path[..2] + path[4..] == other;
  }

  lemma NothingDropped(path: Path)
    requires EQUALIZER_BANK !in path
    ensures Dropped(path, 2) == path
  {
    DroppedIsShorter(path, 2);
  }

  lemma ConfusedPaths()
    ensures [DSP, 13] + [EQUALIZER_BANK, FIRST_BANK + 2] == [DSP, 13, EQUALIZER_BANK, FIRST_BANK + 2]
    ensures [DSP, 13] + [FILTER, FIRST_FILTER, 24] == [DSP, 13, FILTER, FIRST_FILTER, 24]
    ensures [DSP, 13, EQUALIZER_BANK, FIRST_BANK + 2] + [FILTER, FIRST_FILTER, 24] ==
      [DSP, 13, EQUALIZER_BANK, FIRST_BANK + 2, FILTER, FIRST_FILTER, 24]
  {
  }

  lemma DecodedFilter(atoms: seq<Atom>)
    requires atoms == [Symbol("equalizer"), Symbol("filter"), Integer(1), Symbol("frequency")]
    ensures Decoded(atoms, false) == Some([DSP, 13, FILTER, FIRST_FILTER, 24])
  {
    ConfusedPaths();
    FilterSegments(atoms[1..], [DSP, 13]);
    EqualizerDecodes(atoms, [DSP, 13, FILTER, FIRST_FILTER, 24]);
  }

  lemma DecodedBankFilter(atoms: seq<Atom>, tail: seq<Atom>)
    requires tail == [Symbol("filter"), Integer(1), Symbol("frequency")]
    requires atoms == [Symbol("equalizer"), Symbol("bank"), Integer(2)] + tail
    ensures Decoded(atoms, false) == Some([DSP, 13, EQUALIZER_BANK, FIRST_BANK + 2, FILTER, FIRST_FILTER, 24])
  {
    ConfusedPaths();
    FilterSegments(tail, [DSP, 13, EQUALIZER_BANK, FIRST_BANK + 2]);
    BankSegment(atoms[1..], [DSP, 13]);
    assert atoms[1..][2..] == tail;
    EqualizerDecodes(atoms, [DSP, 13, EQUALIZER_BANK, FIRST_BANK + 2, FILTER, FIRST_FILTER, 24]);
  }

  lemma EqualizerDecodes(atoms: seq<Atom>, path: Path)
    requires atoms != [] && atoms[0] == Symbol("equalizer") && |path| > 2
    requires Segments(atoms[1..], [DSP, 13]) == Some(path)
    ensures Decoded(atoms, false) == Some(path)
  {
    DeviceDecodes(atoms, "equalizer", 13);
  }

  lemma BankSegment(atoms: seq<Atom>, path: Path)
    requires |atoms| > 1 && atoms[0] == Symbol("bank") && atoms[1] == Integer(2)
    ensures Segments(atoms, path) == Segments(atoms[2..], path + [EQUALIZER_BANK, FIRST_BANK + 2])
  {
    KeywordsAreNoNodes();
    assert atoms[1..][0] == Integer(2);
  }

  lemma FilterSegments(atoms: seq<Atom>, path: Path)
    requires atoms == [Symbol("filter"), Integer(1), Symbol("frequency")]
    requires DETECTOR !in path && INPUT_DETECTOR !in path && OUTPUT_DETECTOR !in path
    ensures Segments(atoms, path) == Some(path + [FILTER, FIRST_FILTER, 24])
  {
    KeywordsAreNoNodes();
    assert atoms[1..][0] == Integer(1) && atoms[2..] == [Symbol("frequency")];
    FrequencySegment(atoms[2..], path + [FILTER, FIRST_FILTER]);
    assert (path + [FILTER, FIRST_FILTER]) + [24] == path + [FILTER, FIRST_FILTER, 24];
  }

  lemma FrequencySegment(atoms: seq<Atom>, path: Path)
    requires atoms == [Symbol("frequency")]
    ensures Segments(atoms, path) == Some(path + [24])
  {
    assert atoms[1..] == [];
    assert "frequency" != "gain" && "frequency" != "bank" && "frequency" != "filter";
    assert ToDetectorNode("frequency").None? && ToNode("frequency") == Some(24);
  }
}
