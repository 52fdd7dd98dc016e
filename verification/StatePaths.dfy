/**
  State paths on the wire: the decoder reads a list of atoms, the encoder prints dotted text. Every
  value path that the decoder accepts, and that names its banks, survives printing and reading.
 */
module StatePaths {
  import opened Common

  datatype Atom = Symbol(name: string) | Integer(value: int) | OtherAtom

  const EQUALIZER_FILTER_COUNT: nat := 7
  const DETECTOR_FILTER_COUNT: nat := 2

  const INSTANCE: nat := 1
  const LABEL: nat := 2
  const MUTE: nat := 4
  const SOLO: nat := 5
  const BANK: nat := 6
  const GROUP: nat := 8
  const DSP: nat := 9
  const DETECTOR: nat := 28
  const EQUALIZER_BANK: nat := 29
  const FILTER: nat := 30
  const FOCUSED_BANK: nat := 31
  const INPUT_DETECTOR: nat := 64
  const OUTPUT_DETECTOR: nat := 65
  const FIRST_FILTER: nat := 200

  function ToNode(name: string): Option<nat> {
    match name
    case "label" => Some(2)
    case "mute" => Some(4)
    case "solo" => Some(5)
    case "width" => Some(33)
    case "input_level" => Some(46)
    case "input_target" => Some(47)
    case "input_leveler" => Some(48)
    case "output_level" => Some(49)
    case "output_target" => Some(50)
    case "output_leveler" => Some(51)
    case "limit" => Some(52)
    case "drive" => Some(16)
    case "curve" => Some(35)
    case "split" => Some(36)
    case "output" => Some(17)
    case "gain" => Some(45)
    case "attack" => Some(22)
    case "sustain" => Some(37)
    case "compression" => Some(14)
    case "reduction" => Some(38)
    case "type" => Some(39)
    case "parallel" => Some(40)
    case "release" => Some(55)
    case "ratio" => Some(56)
    case "thick" => Some(41)
    case "air" => Some(42)
    case "frequency" => Some(24)
    case "q" => Some(25)
    case "bypass" => Some(26)
    case _ => None
  }

  function ToDeviceNode(name: string): Option<nat> {
    match name
    case "gain_staging" => Some(10)
    case "saturator" => Some(11)
    case "shaper" => Some(12)
    case "compression" => Some(14)
    case "equalizer" => Some(13)
    case "polish" => Some(44)
    case _ => None
  }

  function ToDetectorNode(name: string): Option<nat> {
    match name
    case "detector" => Some(DETECTOR)
    case "input_detector" => Some(INPUT_DETECTOR)
    case "output_detector" => Some(OUTPUT_DETECTOR)
    case _ => None
  }

  function ToSymbol(node: nat): Option<string> {
    match node
    case 2 => Some("label")
    case 4 => Some("mute")
    case 5 => Some("solo")
    case 8 => Some("group")
    case 10 => Some("gain_staging")
    case 11 => Some("saturator")
    case 12 => Some("shaper")
    case 14 => Some("compression")
    case 13 => Some("equalizer")
    case 44 => Some("polish")
    case 45 => Some("gain")
    case 16 => Some("drive")
    case 17 => Some("output")
    case 33 => Some("width")
    case 46 => Some("input_level")
    case 47 => Some("input_target")
    case 48 => Some("input_leveler")
    case 49 => Some("output_level")
    case 50 => Some("output_target")
    case 51 => Some("output_leveler")
    case 52 => Some("limit")
    case 35 => Some("curve")
    case 36 => Some("split")
    case 22 => Some("attack")
    case 37 => Some("sustain")
    case 38 => Some("reduction")
    case 39 => Some("type")
    case 40 => Some("parallel")
    case 55 => Some("release")
    case 56 => Some("ratio")
    case 57 => Some("profile")
    case 60 => Some("ssl")
    case 61 => Some("76")
    case 62 => Some("3a")
    case 63 => Some("2a")
    case 41 => Some("thick")
    case 42 => Some("air")
    case 24 => Some("frequency")
    case 25 => Some("q")
    case 26 => Some("bypass")
    case 64 => Some("input_detector")
    case 65 => Some("output_detector")
    case 28 => Some("detector")
    case _ => None
  }

  // Decoding. `None` is the format error.

  function ReadSymbol(atoms: seq<Atom>): Option<string> {
    if atoms != [] && atoms[0].Symbol? then Some(atoms[0].name) else None
  }

  function ReadIndex(atoms: seq<Atom>, count: nat, wireBase: nat): Option<nat> {
    if atoms != [] && atoms[0].Integer? && wireBase <= atoms[0].value < count + wireBase
    then Some(atoms[0].value - wireBase) else None
  }

  function FilterCount(path: Path): nat {
    if DETECTOR in path || INPUT_DETECTOR in path || OUTPUT_DETECTOR in path then DETECTOR_FILTER_COUNT
    else EQUALIZER_FILTER_COUNT
  }

  function Extended(path: Path, nodes: Path, count: nat): (Path, nat) { (path + nodes, count) }

  /** One turn of the loop over the segments of a device path: the longer path, and how many atoms were
      read. */
  function Segment(atoms: seq<Atom>, path: Path): (r: Option<(Path, nat)>)
    requires atoms != []
    ensures r.Some? ==> 0 < r.value.1 <= |atoms|
  {
    var symbol := ReadSymbol(atoms);
    if symbol.None? then None
    else if ToDetectorNode(symbol.value).Some? then Some(Extended(path, [ToDetectorNode(symbol.value).value], 1))
    else if symbol.value == "filter" then
      var filter := ReadIndex(atoms[1..], FilterCount(path), 1);
      if filter.None? then None else Some(Extended(path, [FILTER, FIRST_FILTER + filter.value], 2))
    else if symbol.value == "bank" then
      if |atoms| > 1 && atoms[1].Integer? then
        var bank := ReadIndex(atoms[1..], BANK_COUNT, 0);
        if bank.None? then None else Some(Extended(path, [EQUALIZER_BANK, FIRST_BANK + bank.value], 2))
      else Some(Extended(path, [EQUALIZER_BANK, FOCUSED_BANK], 1))
    else if symbol.value == "gain" && FILTER !in path then None
    else if ToNode(symbol.value).None? || |atoms| != 1 then None
    else Some(Extended(path, [ToNode(symbol.value).value], 1))
  }

  function Segments(atoms: seq<Atom>, path: Path): Option<Path>
    decreases |atoms|
  {
    if atoms == [] then Some(path)
    else
      match Segment(atoms, path)
      case None => None
      case Some((next, count)) => Segments(atoms[count..], next)
  }

  function DecodeBank(atoms: seq<Atom>, allowContainer: bool): Option<Path> {
    match ReadIndex(atoms, BANK_COUNT, 0)
    case None => None
    case Some(bank) =>
      var path := [INSTANCE, BANK, FIRST_BANK + bank];
      if |atoms| > 1 then
        if ReadSymbol(atoms[1..]) == Some("group") && |atoms| == 2 then Some(path + [GROUP]) else None
      else if allowContainer then Some(path)
      else None
  }

  function Decoded(atoms: seq<Atom>, allowContainer: bool): Option<Path> {
    match ReadSymbol(atoms)
    case None => None
    case Some(first) =>
      if first == "dsp" then
        if allowContainer && |atoms| == 1 then Some([DSP]) else None
      else if first == "label" || first == "mute" || first == "solo" then Some([INSTANCE, ToNode(first).value])
      else if first == "bank" then DecodeBank(atoms[1..], allowContainer)
      else if ToDeviceNode(first).None? then None
      else
        match Segments(atoms[1..], [DSP, ToDeviceNode(first).value])
        case None => None
        case Some(path) => if !allowContainer && |path| <= 2 then None else Some(path)
  }

  method Decode(atoms: seq<Atom>, allowContainer: bool) returns (r: Option<Path>)
    ensures r == Decoded(atoms, allowContainer)
  {
    var first := ReadSymbol(atoms);
    if first.None? {
      return None;
    }
    if first.value == "dsp" {
      return if allowContainer && |atoms| == 1 then Some([DSP]) else None;
    }
    if first.value == "label" || first.value == "mute" || first.value == "solo" {
      return Some([INSTANCE, ToNode(first.value).value]);
    }
    if first.value == "bank" {
      return DecodeBank(atoms[1..], allowContainer);
    }
    if ToDeviceNode(first.value).None? {
      return None;
    }
    var position, path := 1, [DSP, ToDeviceNode(first.value).value];
    while position < |atoms|
      invariant position <= |atoms|
      invariant Segments(atoms[1..], [DSP, ToDeviceNode(first.value).value]) == Segments(atoms[position..], path)
    {
      var segment := Segment(atoms[position..], path);
      if segment.None? {
        return None;
      }
      assert atoms[position..][segment.value.1..] == atoms[position + segment.value.1..];
      path, position := segment.value.0, position + segment.value.1;
    }
    r := if !allowContainer && |path| <= 2 then None else Some(path);
  }

  // Encoding

  function Decimal(n: int): string
    decreases if n < 0 then 1 - n else n
  {
    if n < 0 then "-" + Decimal(-n)
    else if n < 10 then ["0123456789"[n]]
    else Decimal(n / 10) + Decimal(n % 10)
  }

  /** The printed segments of the nodes; `None` when a node has no wire name or an index is missing. */
  function Parts(nodes: Path, observedBank: Option<nat>): Option<seq<string>>
    decreases |nodes|
  {
    if nodes == [] then Some([])
    else
      var node := nodes[0];
      if node == INSTANCE || node == DSP then Parts(nodes[1..], observedBank)
      else if node == BANK || node == EQUALIZER_BANK || node == FILTER then
        if |nodes| < 2 then None
        else Prefixed(Indexed(node, nodes[1], observedBank), Parts(nodes[2..], observedBank))
      else if ToSymbol(node).None? then None
      else Prefixed([ToSymbol(node).value], Parts(nodes[1..], observedBank))
  }

  function Prefixed(parts: seq<string>, rest: Option<seq<string>>): Option<seq<string>> {
    match rest
    case None => None
    case Some(more) => Some(parts + more)
  }

  lemma PrefixedTwice(a: seq<string>, b: seq<string>, rest: Option<seq<string>>)
    ensures Prefixed(a, Prefixed(b, rest)) == Prefixed(a + b, rest)
    ensures Prefixed([], rest) == rest
  {
    if rest.Some? {
      assert a + (b + rest.value) == (a + b) + rest.value && [] + rest.value == rest.value;
    }
  }

  function Indexed(node: nat, index: nat, observedBank: Option<nat>): seq<string> {
    if node == FILTER then ["filter", Decimal(index - 199)]
    else
      var bank := index - 100;
      if node == EQUALIZER_BANK && observedBank.Some? && observedBank.value == bank
      then ["bank"]
      else ["bank", Decimal(bank)]
  }

  function Join(parts: seq<string>): string {
    if parts == [] then ""
    else if |parts| == 1 then parts[0]
    else parts[0] + "." + Join(parts[1..])
  }

  /** Replaces every occurrence, from the left. */
  function Replace(text: string, pattern: string, replacement: string): string
    requires pattern != ""
    decreases |text|
  {
    if |text| < |pattern| then text
    else if text[..|pattern|] == pattern then replacement + Replace(text[|pattern|..], pattern, replacement)
    else [text[0]] + Replace(text[1..], pattern, replacement)
  }

  function Encoded(path: Path, observedBank: Option<nat>): Option<string> {
    match Parts(path, observedBank)
    case None => None
    case Some(parts) => Some(Replace(Join(parts), ".bank.filter.", ".filter."))
  }

  method Encode(path: Path, observedBank: Option<nat>) returns (r: Option<string>)
    ensures r == Encoded(path, observedBank)
  {
    var parts: seq<string>, index := [], 0;
    PrefixedTwice([], [], Parts(path, observedBank));
    while index < |path|
      invariant index <= |path|
      invariant Parts(path, observedBank) == Prefixed(parts, Parts(path[index..], observedBank))
    {
      var node := path[index];
      assert path[index..][1..] == path[index + 1..];
      if node == INSTANCE || node == DSP {
        index := index + 1;
      } else if node == BANK || node == EQUALIZER_BANK || node == FILTER {
        if index + 1 == |path| {
          return None;
        }
        assert path[index..][2..] == path[index + 2..];
        PrefixedTwice(parts, Indexed(node, path[index + 1], observedBank), Parts(path[index + 2..], observedBank));
        parts := parts + Indexed(node, path[index + 1], observedBank);
        index := index + 2;
      } else {
        if ToSymbol(node).None? {
          return None;
        }
        PrefixedTwice(parts, [ToSymbol(node).value], Parts(path[index + 1..], observedBank));
        parts := parts + [ToSymbol(node).value];
        index := index + 1;
      }
    }
    assert parts + [] == parts;
    r := Some(Replace(Join(parts), ".bank.filter.", ".filter."));
  }

  // Reading the text again

  function Split(text: string): (parts: seq<string>)
    ensures parts != []
  {
    if text == "" then [""]
    else
      var rest := Split(text[1..]);
      if text[0] == '.' then [""] + rest else [[text[0]] + rest[0]] + rest[1..]
  }

  predicate IsDigit(c: char) { '0' <= c <= '9' }

  predicate IsNumber(token: string) { token != "" && forall c :: c in token ==> IsDigit(c) }

  function NumberValue(token: string): nat
    requires forall c :: c in token ==> IsDigit(c)
  {
    if token == "" then 0
    else
      assert IsDigit(token[|token| - 1]);
      10 * NumberValue(token[..|token| - 1]) + (token[|token| - 1] as int - '0' as int)
  }

  function ToAtom(token: string): Atom {
    if IsNumber(token) then Integer(NumberValue(token)) else Symbol(token)
  }

  function ToAtoms(tokens: seq<string>): (atoms: seq<Atom>)
    ensures |atoms| == |tokens| && forall i :: 0 <= i < |tokens| ==> atoms[i] == ToAtom(tokens[i])
  {
    if tokens == [] then [] else [ToAtom(tokens[0])] + ToAtoms(tokens[1..])
  }

  function Read(text: string): seq<Atom> { ToAtoms(Split(text)) }

  // Names and numbers

  /** A token that reads as a symbol and does not disturb the splitting. */
  predicate IsWord(token: string) {
    token != "" && !IsDigit(token[0]) && NoDot(token)
  }

  predicate NoDot(token: string) {
    forall i :: 0 <= i < |token| ==> token[i] != '.'
  }

  lemma WordsAreSymbols(token: string)
    requires IsWord(token)
    ensures ToAtom(token) == Symbol(token)
  {
  }

  lemma SingleDigit(n: nat)
    requires n < 10
    ensures |Decimal(n)| == 1 && NoDot(Decimal(n)) && ToAtom(Decimal(n)) == Integer(n)
    ensures Decimal(n) != "filter" && Decimal(n) != "bank"
  {
    var token := Decimal(n);
    assert token[..0] == "";
    assert NumberValue(token) == 10 * NumberValue(token[..0]) + n;
  }

  lemma NodesPrintAsTheirNames(name: string)
    requires ToNode(name).Some?
    ensures ToSymbol(ToNode(name).value) == Some(name)
  {
  }

  lemma DetectorsPrintAsTheirNames(name: string)
    requires ToDetectorNode(name).Some?
    ensures ToSymbol(ToDetectorNode(name).value) == Some(name)
  {
  }

  lemma DevicesPrintAsTheirNames(name: string)
    requires ToDeviceNode(name).Some?
    ensures ToSymbol(ToDeviceNode(name).value) == Some(name)
  {
  }

  lemma SymbolsAreWords(node: nat)
    requires ToSymbol(node).Some? && !(60 <= node <= 63)
    ensures IsWord(ToSymbol(node).value)
  {
    if node <= 17 {
      LowWords(node);
    } else if node <= 36 {
      MiddleWords(node);
    } else if node <= 45 {
      HighWords(node);
    } else if node <= 49 {
      LevelWords(node);
    } else {
      LastWords(node);
    }
  }

  lemma LowWords(node: nat)
    requires ToSymbol(node).Some? && node <= 17
    ensures IsWord(ToSymbol(node).value)
  {
  }

  lemma MiddleWords(node: nat)
    requires ToSymbol(node).Some? && 18 <= node <= 36
    ensures IsWord(ToSymbol(node).value)
  {
  }

  lemma HighWords(node: nat)
    requires ToSymbol(node).Some? && 37 <= node <= 45
    ensures IsWord(ToSymbol(node).value)
  {
  }

  lemma LevelWords(node: nat)
    requires ToSymbol(node).Some? && 46 <= node <= 49
    ensures IsWord(ToSymbol(node).value)
  {
  }

  lemma LastWords(node: nat)
    requires ToSymbol(node).Some? && 50 <= node && !(60 <= node <= 63)
    ensures IsWord(ToSymbol(node).value)
  {
  }

  lemma KeywordsAreNoNodes()
    ensures ToNode("bank").None? && ToNode("filter").None?
    ensures ToDetectorNode("bank").None? && ToDetectorNode("filter").None?
    ensures ToDeviceNode("bank").None? && ToDeviceNode("dsp").None?
    ensures ToDeviceNode("label").None? && ToDeviceNode("mute").None? && ToDeviceNode("solo").None?
  {
  }

  // Round trip of the segments

  /** The node prints as one plain word. */
  predicate IsPlainNode(node: nat) {
    && node != INSTANCE && node != DSP && node != BANK
    && node != EQUALIZER_BANK && node != FILTER && node != FOCUSED_BANK
    && ToSymbol(node).Some? && IsWord(ToSymbol(node).value)
  }

  lemma NodesArePlain(name: string)
    requires ToNode(name).Some?
    ensures IsPlainNode(ToNode(name).value)
  {
    NodesPrintAsTheirNames(name);
    var node := ToNode(name).value;
    assert node < 57 && node !in {INSTANCE, DSP, BANK, EQUALIZER_BANK, FILTER, FOCUSED_BANK};
    SymbolsAreWords(node);
  }

  lemma DetectorsArePlain(name: string)
    requires ToDetectorNode(name).Some?
    ensures IsPlainNode(ToDetectorNode(name).value)
  {
    DetectorsPrintAsTheirNames(name);
    SymbolsAreWords(ToDetectorNode(name).value);
  }

  lemma DevicesArePlain(name: string)
    requires ToDeviceNode(name).Some?
    ensures IsPlainNode(ToDeviceNode(name).value)
  {
    DevicesPrintAsTheirNames(name);
    SymbolsAreWords(ToDeviceNode(name).value);
  }

  /** Tokens that survive joining and splitting, in which a bank is always followed by its number. */
  predicate Clean(parts: seq<string>) {
    && (forall i :: 0 <= i < |parts| ==> NoDot(parts[i]))
    && (forall i :: 0 <= i < |parts| && parts[i] == "bank" ==> i + 1 < |parts| && parts[i + 1] != "filter")
  }

  lemma CleanAppend(a: seq<string>, b: seq<string>)
    requires Clean(a) && Clean(b)
    ensures Clean(a + b)
  {
  }

  /** The nodes and the tokens of one segment that is no focused bank. */
  predicate IsSegment(nodes: Path, piece: seq<string>) {
    || (|nodes| == 1 && IsPlainNode(nodes[0]) && piece == [ToSymbol(nodes[0]).value])
    || (|nodes| == 2 && nodes[0] == FILTER && FIRST_FILTER <= nodes[1] < FIRST_FILTER + EQUALIZER_FILTER_COUNT
        && piece == ["filter", Decimal(nodes[1] - FIRST_FILTER + 1)])
    || (|nodes| == 2 && nodes[0] == EQUALIZER_BANK && FIRST_BANK <= nodes[1] < FIRST_BANK + BANK_COUNT
        && piece == ["bank", Decimal(nodes[1] - FIRST_BANK)])
  }

  /** `nodes` is what one turn of the loop over `atoms` appends to `path`. It prints as the tokens of
      `piece`, and reading these tokens takes the same turn again. */
  ghost predicate SameTurn(atoms: seq<Atom>, path: Path, more: Path, rest: seq<string>, nodes: Path, piece: seq<string>)
    requires atoms != [] && Segment(atoms, path).Some?
  {
    var (next, count) := Segment(atoms, path).value;
    && next == path + nodes && FOCUSED_BANK !in nodes && piece != [] && Clean(piece) && IsSegment(nodes, piece)
    && Segment(ToAtoms(piece + rest), path) == Some((next, |piece|))
    && Parts(nodes + more, None) == Prefixed(piece, Parts(more, None))
  }

  /** A bank without a number stands for the focused bank. */
  predicate IsFocusedTurn(atoms: seq<Atom>) {
    atoms != [] && atoms[0] == Symbol("bank") && !(|atoms| > 1 && atoms[1].Integer?)
  }

  lemma SegmentRoundTrip(atoms: seq<Atom>, path: Path, more: Path, rest: seq<string>)
    returns (nodes: Path, piece: seq<string>)
    requires atoms != [] && Segment(atoms, path).Some? && !IsFocusedTurn(atoms)
    requires |atoms| == Segment(atoms, path).value.1 ==> rest == []
    ensures SameTurn(atoms, path, more, rest, nodes, piece)
  {
    KeywordsAreNoNodes();
    if atoms[0].name == "filter" {
      nodes, piece := FilterRoundTrip(atoms, path, more, rest);
    } else if atoms[0].name == "bank" {
      nodes, piece := EqualizerBankRoundTrip(atoms, path, more, rest);
    } else {
      nodes, piece := WordRoundTrip(atoms, path, more, rest);
    }
  }

  lemma WordRoundTrip(atoms: seq<Atom>, path: Path, more: Path, rest: seq<string>)
    returns (nodes: Path, piece: seq<string>)
    requires atoms != [] && Segment(atoms, path).Some? && atoms[0].name != "filter" && atoms[0].name != "bank"
    requires |atoms| == Segment(atoms, path).value.1 ==> rest == []
    ensures SameTurn(atoms, path, more, rest, nodes, piece)
  {
    var name := atoms[0].name;
    if ToDetectorNode(name).Some? {
      DetectorsPrintAsTheirNames(name);
      DetectorsArePlain(name);
      nodes, piece := PlainPiece(ToDetectorNode(name).value, more);
    } else {
      NodesPrintAsTheirNames(name);
      NodesArePlain(name);
      nodes, piece := PlainPiece(ToNode(name).value, more);
    }
    WordsAreSymbols(name);
  }

  lemma FilterRoundTrip(atoms: seq<Atom>, path: Path, more: Path, rest: seq<string>)
    returns (nodes: Path, piece: seq<string>)
    requires atoms != [] && Segment(atoms, path).Some? && atoms[0].name == "filter"
    ensures SameTurn(atoms, path, more, rest, nodes, piece)
  {
    KeywordsAreNoNodes();
    var filter := ReadIndex(atoms[1..], FilterCount(path), 1).value;
    nodes, piece := IndexedPiece(FILTER, FIRST_FILTER + filter, more);
    assert Decimal(filter + 1) == piece[1];
    SingleDigit(filter + 1);
    KeywordsAreWords();
  }

  lemma EqualizerBankRoundTrip(atoms: seq<Atom>, path: Path, more: Path, rest: seq<string>)
    returns (nodes: Path, piece: seq<string>)
    requires atoms != [] && Segment(atoms, path).Some? && atoms[0].name == "bank" && !IsFocusedTurn(atoms)
    ensures SameTurn(atoms, path, more, rest, nodes, piece)
  {
    KeywordsAreNoNodes();
    var bank := ReadIndex(atoms[1..], BANK_COUNT, 0).value;
    nodes, piece := IndexedPiece(EQUALIZER_BANK, FIRST_BANK + bank, more);
    assert Decimal(bank) == piece[1];
    SingleDigit(bank);
    KeywordsAreWords();
  }

  /** The focused bank prints as a number no bank has, which is read as an unknown segment. */
  lemma FocusedTurnIsLost(path: Path, more: Path, rest: seq<string>) returns (piece: seq<string>)
    ensures piece != [] && Clean(piece) && Segments(ToAtoms(piece + rest), path).None?
    ensures Parts([EQUALIZER_BANK, FOCUSED_BANK] + more, None) == Prefixed(piece, Parts(more, None))
  {
    FocusedNumber();
    piece := ["bank", "-69"];
    UnknownSegment(path, rest);
    var nodes := [EQUALIZER_BANK, FOCUSED_BANK] + more;
    assert nodes[0] == EQUALIZER_BANK && nodes[1] == FOCUSED_BANK && nodes[2..] == more;
  }

  lemma FocusedNumber()
    ensures Decimal(FOCUSED_BANK - FIRST_BANK) == "-69" && IsWord("-69")
  {
    assert Decimal(69) == Decimal(6) + Decimal(9) && Decimal(-69) == "-" + Decimal(69);
  }

  lemma UnknownSegment(path: Path, rest: seq<string>)
    ensures Segments(ToAtoms(["bank", "-69"] + rest), path).None?
  {
    KeywordsAreNoNodes();
    KeywordsAreWords();
    UnknownNumber();
    WordsAreSymbols("-69");
    var atoms := ToAtoms(["bank", "-69"] + rest);
    assert atoms[0] == Symbol("bank") && atoms[1] == Symbol("-69") && atoms[1..][0] == Symbol("-69");
  }

  lemma UnknownNumber()
    ensures ToNode("-69").None? && ToDetectorNode("-69").None?
  {
  }

  lemma KeywordsAreWords()
    ensures ToAtom("bank") == Symbol("bank") && ToAtom("filter") == Symbol("filter")
  {
    WordsAreSymbols("bank");
    WordsAreSymbols("filter");
  }

  lemma PlainPiece(node: nat, more: Path) returns (nodes: Path, piece: seq<string>)
    requires IsPlainNode(node) && ToSymbol(node) != Some("bank")
    ensures nodes == [node] && piece == [ToSymbol(node).value] && Clean(piece)
    ensures Parts(nodes + more, None) == Prefixed(piece, Parts(more, None))
  {
    nodes, piece := [node], [ToSymbol(node).value];
    assert (nodes + more)[0] == node && (nodes + more)[1..] == more;
  }

  lemma IndexedPiece(node: nat, index: nat, more: Path) returns (nodes: Path, piece: seq<string>)
    requires (node == FILTER && 200 <= index < 207) || ((node == EQUALIZER_BANK || node == BANK) && 100 <= index < 107)
    ensures nodes == [node, index] && piece == Indexed(node, index, None) && |piece| == 2 && Clean(piece)
    ensures Parts(nodes + more, None) == Prefixed(piece, Parts(more, None))
  {
    nodes, piece := [node, index], Indexed(node, index, None);
    SingleDigit(if node == FILTER then index - 199 else index - 100);
    assert (nodes + more)[0] == node && (nodes + more)[1] == index && (nodes + more)[2..] == more;
  }

  /** The segments that the decoder accepted are printed without loss. Reading the tokens gives them
      back exactly when no focused bank is among them, and fails otherwise. */
  lemma {:induction false} SegmentsRoundTrip(atoms: seq<Atom>, path: Path) returns (nodes: Path, parts: seq<string>)
    requires Segments(atoms, path).Some?
    ensures Segments(atoms, path) == Some(path + nodes) && Parts(nodes, None) == Some(parts) && Clean(parts)
    ensures Segments(ToAtoms(parts), path) == if FOCUSED_BANK in nodes then None else Some(path + nodes)
    ensures atoms == [] ==> parts == []
    decreases |atoms|
  {
    if atoms == [] {
      nodes, parts := [], [];
      assert path + nodes == path;
    } else {
      var (next, count) := Segment(atoms, path).value;
      var laterNodes, laterParts := SegmentsRoundTrip(atoms[count..], next);
      if IsFocusedTurn(atoms) {
        KeywordsAreNoNodes();
        var piece := FocusedTurnIsLost(path, laterNodes, laterParts);
        nodes, parts := [EQUALIZER_BANK, FOCUSED_BANK] + laterNodes, piece + laterParts;
        CleanAppend(piece, laterParts);
        Associate(path, [EQUALIZER_BANK, FOCUSED_BANK], laterNodes);
        assert nodes[1] == FOCUSED_BANK;
      } else {
        var firstNodes, firstParts := SegmentRoundTrip(atoms, path, laterNodes, laterParts);
        nodes, parts := firstNodes + laterNodes, firstParts + laterParts;
        CleanAppend(firstParts, laterParts);
        Associate(path, firstNodes, laterNodes);
        OneTurn(firstParts, laterParts, path, next);
      }
    }
  }

  lemma Associate(a: Path, b: Path, c: Path)
    ensures a + (b + c) == (a + b) + c
  {
  }

  lemma OneTurn(piece: seq<string>, rest: seq<string>, path: Path, next: Path)
    requires piece != [] && Segment(ToAtoms(piece + rest), path) == Some((next, |piece|))
    ensures Segments(ToAtoms(piece + rest), path) == Segments(ToAtoms(rest), next)
  {
    assert ToAtoms(piece + rest)[|piece|..] == ToAtoms(rest);
  }

  /** The token-level round trip: what the decoder accepted is printed, and reading the tokens gives it
      back exactly when no focused bank is in it. */
  lemma PartsRoundTrip(atoms: seq<Atom>) returns (parts: seq<string>)
    requires Decoded(atoms, false).Some?
    ensures Parts(Decoded(atoms, false).value, None) == Some(parts) && parts != [] && Clean(parts)
    ensures Decoded(ToAtoms(parts), false) ==
      if FOCUSED_BANK in Decoded(atoms, false).value then None else Decoded(atoms, false)
  {
    var first, path := ReadSymbol(atoms).value, Decoded(atoms, false).value;
    KeywordsAreNoNodes();
    if first == "label" || first == "mute" || first == "solo" {
      NodesPrintAsTheirNames(first);
      NodesArePlain(first);
      WordsAreSymbols(first);
      var nodes, piece := PlainPiece(ToNode(first).value, []);
      assert path[0] == INSTANCE && path[1..] == nodes + [];
      parts := piece;
      assert piece + [] == piece;
    } else if first == "bank" {
      parts := BankRoundTrip(atoms[1..]);
    } else {
      parts := DeviceRoundTrip(atoms);
    }
  }

  lemma DeviceRoundTrip(atoms: seq<Atom>) returns (parts: seq<string>)
    requires Decoded(atoms, false).Some? && ToDeviceNode(atoms[0].name).Some?
    ensures Parts(Decoded(atoms, false).value, None) == Some(parts) && parts != [] && Clean(parts)
    ensures Decoded(ToAtoms(parts), false) ==
      if FOCUSED_BANK in Decoded(atoms, false).value then None else Decoded(atoms, false)
  {
    var first, path := atoms[0].name, Decoded(atoms, false).value;
    var device := ToDeviceNode(first).value;
    KeywordsAreNoNodes();
    DevicesPrintAsTheirNames(first);
    DevicesArePlain(first);
    WordsAreSymbols(first);
    var nodes, rest := SegmentsRoundTrip(atoms[1..], [DSP, device]);
    var deviceNodes, devicePart := PlainPiece(device, nodes);
    parts := devicePart + rest;
    CleanAppend(devicePart, rest);
    assert path == [DSP, device] + nodes && path[1..] == deviceNodes + nodes;
    assert ToAtoms(parts)[1..] == ToAtoms(rest);
    DeviceDecodes(ToAtoms(parts), first, device);
  }

  lemma DeviceDecodes(atoms: seq<Atom>, name: string, device: nat)
    requires atoms != [] && atoms[0] == Symbol(name) && ToDeviceNode(name) == Some(device)
    ensures Decoded(atoms, false) ==
      match Segments(atoms[1..], [DSP, device])
      case None => None
      case Some(path) => if |path| <= 2 then None else Some(path)
  {
    KeywordsAreNoNodes();
  }

  lemma BankRoundTrip(atoms: seq<Atom>) returns (parts: seq<string>)
    requires DecodeBank(atoms, false).Some?
    ensures Parts(DecodeBank(atoms, false).value, None) == Some(parts) && parts != [] && Clean(parts)
    ensures Decoded(ToAtoms(parts), false) == DecodeBank(atoms, false)
  {
    var bank, path := ReadIndex(atoms, BANK_COUNT, 0).value, DecodeBank(atoms, false).value;
    var bankNodes, bankParts := IndexedPiece(BANK, FIRST_BANK + bank, [GROUP]);
    SymbolsAreWords(GROUP);
    var groupNodes, groupParts := PlainPiece(GROUP, []);
    parts := bankParts + groupParts;
    CleanAppend(bankParts, groupParts);
    assert path[0] == INSTANCE && path[1..] == bankNodes + [GROUP] && [GROUP] == groupNodes + [];
    assert groupParts == groupParts + [];
    SingleDigit(bank);
    BankReads(parts, bank);
  }

  lemma BankReads(parts: seq<string>, bank: nat)
    requires parts == ["bank", Decimal(bank), "group"] && bank < BANK_COUNT
    ensures Decoded(ToAtoms(parts), false) == Some([INSTANCE, BANK, FIRST_BANK + bank] + [GROUP])
  {
    SingleDigit(bank);
    KeywordsAreWords();
    WordsAreSymbols("group");
    var atoms := ToAtoms(parts);
    assert atoms[1..][0] == Integer(bank) && atoms[1..][1..][0] == Symbol("group");
  }

  // Round trip of the text

  lemma {:induction false} SplitAtDot(a: string, b: string)
    ensures Split(a + ['.'] + b) == Split(a) + Split(b)
    decreases |a|
  {
    var text := a + ['.'] + b;
    if a == "" {
      assert text[0] == '.' && text[1..] == b;
    } else {
      assert text[0] == a[0] && text[1..] == a[1..] + ['.'] + b;
      SplitAtDot(a[1..], b);
    }
  }

  lemma {:induction false} SplitWord(token: string)
    requires NoDot(token)
    ensures Split(token) == [token]
    decreases |token|
  {
    if token != "" {
      SplitWord(token[1..]);
      assert [token[0]] + token[1..] == token;
    }
  }

  lemma {:induction false} SplitJoin(parts: seq<string>)
    requires parts != [] && forall i :: 0 <= i < |parts| ==> NoDot(parts[i])
    ensures Split(Join(parts)) == parts
    decreases |parts|
  {
    SplitWord(parts[0]);
    if |parts| > 1 {
      SplitJoin(parts[1..]);
      SplitAtDot(parts[0], Join(parts[1..]));
      assert Join(parts) == parts[0] + ['.'] + Join(parts[1..]);
    }
  }

  ghost predicate Occurs(text: string, pattern: string, i: nat) {
    i + |pattern| <= |text| && text[i..i + |pattern|] == pattern
  }

  lemma {:induction false} NothingToReplace(text: string, pattern: string, replacement: string)
    requires pattern != "" && forall i: nat :: !Occurs(text, pattern, i)
    ensures Replace(text, pattern, replacement) == text
    decreases |text|
  {
    if |text| >= |pattern| {
      assert !Occurs(text, pattern, 0);
      assert text[0..|pattern|] == text[..|pattern|];
      forall i: nat ensures !Occurs(text[1..], pattern, i) {
        assert !Occurs(text, pattern, i + 1);
        if i + |pattern| <= |text[1..]| {
          assert text[1..][i..i + |pattern|] == text[i + 1..i + 1 + |pattern|];
        }
      }
      NothingToReplace(text[1..], pattern, replacement);
      assert [text[0]] + text[1..] == text;
    }
  }

  /** The abbreviation of a focused bank cannot strike where every bank has its number. */
  lemma NoBareBank(parts: seq<string>, i: nat)
    requires parts != [] && Clean(parts)
    ensures !Occurs(Join(parts), ".bank.filter.", i)
  {
    SplitJoin(parts);
    if Occurs(Join(parts), ".bank.filter.", i) {
      OccurrenceSplits(Join(parts), i);
    }
  }

  lemma OccurrenceSplits(text: string, i: nat)
    requires Occurs(text, ".bank.filter.", i)
    ensures var k := |Split(text[..i])|;
      k + 1 < |Split(text)| && Split(text)[k] == "bank" && Split(text)[k + 1] == "filter"
  {
    BareBankSplits(text[..i], text[i + 13..]);
    assert text == text[..i] + ".bank.filter." + text[i + 13..];
  }

  lemma TextAroundBank(before: string, after: string)
    ensures before + ".bank.filter." + after == before + ['.'] + ("bank" + ['.'] + ("filter" + ['.'] + after))
  {
    var text := ['.'] + ("bank" + ['.'] + ("filter" + ['.']));
    assert text == ".bank.filter.";
    assert before + text + after == before + (text + after);
    assert text + after == ['.'] + ("bank" + ['.'] + ("filter" + ['.'] + after));
  }

  lemma BareBankSplits(before: string, after: string)
    ensures Split(before + ".bank.filter." + after) == Split(before) + (["bank"] + (["filter"] + Split(after)))
  {
    var tail := "filter" + ['.'] + after;
    var middle := "bank" + ['.'] + tail;
    TextAroundBank(before, after);
    SplitAtDot(before, middle);
    SplitAtDot("bank", tail);
    SplitAtDot("filter", after);
    SplitWord("bank");
    SplitWord("filter");
  }

  /** Every value path that the decoder accepts can be printed without an observed bank. Splitting the
      text on dots and decoding it again gives the path back exactly when it names all its banks; with a
      focused bank in it the text is not a path. */
  lemma RoundTrip(atoms: seq<Atom>)
    requires Decoded(atoms, false).Some?
    ensures Encoded(Decoded(atoms, false).value, None).Some?
    ensures Decoded(Read(Encoded(Decoded(atoms, false).value, None).value), false) ==
      if FOCUSED_BANK in Decoded(atoms, false).value then None else Decoded(atoms, false)
  {
    var parts := PartsRoundTrip(atoms);
    forall i: nat ensures !Occurs(Join(parts), ".bank.filter.", i) {
      NoBareBank(parts, i);
    }
    NothingToReplace(Join(parts), ".bank.filter.", ".filter.");
    SplitJoin(parts);
  }
}
