/**
  The grammar of state paths on the wire: exactly which lists of atoms the decoder takes for a value path, and
  for which one.
 */
module WirePaths {
  import opened Common
  import opened StatePaths

  /** A segment behind the device. */
  datatype Turn =
    | Detector(name: string)
    | Filter(number: nat)
    | Bank(bank: nat)
    | FocusedBank
    | Value(name: string)
  {
    function Atoms(): seq<Atom> {
      match this
      case Detector(name) => [Symbol(name)]
      case Filter(number) => [Symbol("filter"), Integer(number)]
      case Bank(bank) => [Symbol("bank"), Integer(bank)]
      case FocusedBank => [Symbol("bank")]
      case Value(name) => [Symbol(name)]
    }

    function Nodes(): Path
      requires (Detector? ==> ToDetectorNode(name).Some?) && (Value? ==> ToNode(name).Some?) && (Filter? ==> number > 0)
    {
      match this
      case Detector(name) => [ToDetectorNode(name).value]
      case Filter(number) => [FILTER, FIRST_FILTER + number - 1]
      case Bank(bank) => [EQUALIZER_BANK, FIRST_BANK + bank]
      case FocusedBank => [EQUALIZER_BANK, FOCUSED_BANK]
      case Value(name) => [ToNode(name).value]
    }
  }

  /** What may follow, depending on whether a detector and a filter have come before. A value ends the path. */
  predicate Legal(turns: seq<Turn>, detector: bool, filter: bool) {
    turns != [] ==>
      match turns[0]
      case Detector(name) => ToDetectorNode(name).Some? && Legal(turns[1..], true, filter)
      case Filter(number) =>
        1 <= number <= (if detector then DETECTOR_FILTER_COUNT else EQUALIZER_FILTER_COUNT)
        && Legal(turns[1..], detector, true)
      case Bank(bank) => bank < BANK_COUNT && Legal(turns[1..], detector, filter)
      case FocusedBank => Legal(turns[1..], detector, filter)
      case Value(name) => ToNode(name).Some? && (name == "gain" ==> filter) && turns[1..] == []
  }

  function AllAtoms(turns: seq<Turn>): seq<Atom> {
    if turns == [] then [] else turns[0].Atoms() + AllAtoms(turns[1..])
  }

  function AllNodes(turns: seq<Turn>, detector: bool, filter: bool): Path
    requires Legal(turns, detector, filter)
    decreases turns
  {
    if turns == [] then []
    else
      turns[0].Nodes() + AllNodes(turns[1..], detector || turns[0].Detector?, filter || turns[0].Filter?)
  }

  predicate HasDetector(path: Path) { DETECTOR in path || INPUT_DETECTOR in path || OUTPUT_DETECTOR in path }

  lemma NamesDiffer(name: string)
    ensures ToDetectorNode(name).Some? ==> ToNode(name).None? && name != "bank" && name != "filter"
    ensures ToNode(name).Some? ==> name != "bank" && name != "filter"
    ensures ToNode(name).Some? ==> ToNode(name).value !in {DETECTOR, INPUT_DETECTOR, OUTPUT_DETECTOR, FILTER}
    ensures ToDetectorNode(name).Some? ==> ToDetectorNode(name).value in {DETECTOR, INPUT_DETECTOR, OUTPUT_DETECTOR}
  {
    KeywordsAreNoNodes();
  }

  /** One legal segment is one turn of the decoder's loop. A bank without a number is not followed by one. */
  lemma TurnIsRead(t: Turn, rest: seq<Atom>, path: Path)
    requires t.Detector? ==> ToDetectorNode(t.name).Some?
    requires t.Filter? ==> 1 <= t.number <= FilterCount(path)
    requires t.Bank? ==> t.bank < BANK_COUNT
    requires t.FocusedBank? ==> rest != [] ==> !rest[0].Integer?
    requires t.Value? ==> ToNode(t.name).Some? && (t.name == "gain" ==> FILTER in path) && rest == []
    ensures Segment(t.Atoms() + rest, path) == Some((path + t.Nodes(), |t.Atoms()|))
    ensures HasDetector(path + t.Nodes()) <==> HasDetector(path) || t.Detector?
    ensures FILTER in path + t.Nodes() <==> FILTER in path || t.Filter?
  {
    KeywordsAreNoNodes();
    if t.Detector? || t.Value? {
      NamesDiffer(t.name);
    }
    var atoms := t.Atoms() + rest;
    assert |t.Atoms()| == 2 ==> atoms[1..][0] == t.Atoms()[1];
  }

  lemma FirstIsSymbol(turns: seq<Turn>)
    requires AllAtoms(turns) != []
    ensures AllAtoms(turns)[0].Symbol?
  {
  }

  /** Every legal list of segments is read as its nodes. */
  lemma {:induction false} LegalIsRead(turns: seq<Turn>, path: Path)
    requires Legal(turns, HasDetector(path), FILTER in path)
    ensures Segments(AllAtoms(turns), path) == Some(path + AllNodes(turns, HasDetector(path), FILTER in path))
    decreases turns
  {
    if turns == [] {
      assert path + [] == path;
    } else {
      var t, rest := turns[0], AllAtoms(turns[1..]);
      if rest != [] {
        FirstIsSymbol(turns[1..]);
      }
      TurnIsRead(t, rest, path);
      LegalIsRead(turns[1..], path + t.Nodes());
      assert (t.Atoms() + rest)[|t.Atoms()|..] == rest;
      Associate(path, t.Nodes(), AllNodes(turns[1..], HasDetector(path + t.Nodes()), FILTER in path + t.Nodes()));
    }
  }

  /** The segment that a turn of the loop has read. */
  lemma TurnOf(atoms: seq<Atom>, path: Path) returns (t: Turn)
    requires atoms != [] && Segment(atoms, path).Some?
    ensures var count := Segment(atoms, path).value.1;
      && atoms == t.Atoms() + atoms[count..]
      && (t.Detector? ==> ToDetectorNode(t.name).Some?)
      && (t.Filter? ==> 1 <= t.number <= FilterCount(path)) && (t.Bank? ==> t.bank < BANK_COUNT)
      && (t.FocusedBank? ==> atoms[count..] != [] ==> !atoms[count..][0].Integer?)
      && (t.Value? ==> ToNode(t.name).Some? && (t.name == "gain" ==> FILTER in path) && atoms[count..] == [])
  {
    KeywordsAreNoNodes();
    var name := atoms[0].name;
    t :=
      if ToDetectorNode(name).Some? then Detector(name)
      else if name == "filter" then Filter(ReadIndex(atoms[1..], FilterCount(path), 1).value + 1)
      else if name == "bank" then
        if |atoms| > 1 && atoms[1].Integer? then Bank(ReadIndex(atoms[1..], BANK_COUNT, 0).value) else FocusedBank
      else Value(name);
    assert |atoms| > 1 ==> atoms[1..][0] == atoms[1];
  }

  /** Whatever is read is a legal list of segments. */
  lemma {:induction false} ReadIsLegal(atoms: seq<Atom>, path: Path) returns (turns: seq<Turn>)
    requires Segments(atoms, path).Some?
    ensures Legal(turns, HasDetector(path), FILTER in path) && atoms == AllAtoms(turns)
    decreases |atoms|
  {
    if atoms == [] {
      turns := [];
    } else {
      var t := TurnOf(atoms, path);
      var count := Segment(atoms, path).value.1;
      TurnIsRead(t, atoms[count..], path);
      var rest := ReadIsLegal(atoms[count..], path + t.Nodes());
      turns := [t] + rest;
      assert turns[1..] == rest;
      assert t.Value? ==> rest == [];
    }
  }

  // Whole paths

  /** The forms of a value path: a value of the instance, whatever follows it; the group of a bank; or a value
      or container below a device. */
  ghost predicate Means(atoms: seq<Atom>, path: Path) {
    || (atoms != [] && atoms[0] in {Symbol("label"), Symbol("mute"), Symbol("solo")}
        && path == [INSTANCE, ToNode(atoms[0].name).value])
    || IsBankGroup(atoms, path)
    || IsDevicePath(atoms, path)
  }

  ghost predicate IsBankGroup(atoms: seq<Atom>, path: Path) {
    exists bank: nat :: bank < BANK_COUNT
      && atoms == [Symbol("bank"), Integer(bank), Symbol("group")] && path == [INSTANCE, BANK, FIRST_BANK + bank, GROUP]
  }

  ghost predicate IsDevicePath(atoms: seq<Atom>, path: Path) {
    exists device: string, turns: seq<Turn> :: IsDevice(device, turns, atoms, path)
  }

  ghost predicate IsDevice(device: string, turns: seq<Turn>, atoms: seq<Atom>, path: Path) {
    && ToDeviceNode(device).Some? && turns != [] && Legal(turns, false, false)
    && atoms == [Symbol(device)] + AllAtoms(turns)
    && path == [DSP, ToDeviceNode(device).value] + AllNodes(turns, false, false)
  }

  lemma NodesAreSome(turns: seq<Turn>)
    requires Legal(turns, false, false)
    ensures turns == [] <==> AllNodes(turns, false, false) == []
  {
  }

  lemma DevicesAreFresh(name: string)
    requires ToDeviceNode(name).Some?
    ensures !HasDetector([DSP, ToDeviceNode(name).value]) && FILTER !in [DSP, ToDeviceNode(name).value]
    ensures name != "dsp" && name != "label" && name != "mute" && name != "solo" && name != "bank"
  {
    KeywordsAreNoNodes();
  }

  lemma DeviceIsRead(device: string, turns: seq<Turn>, atoms: seq<Atom>, path: Path)
    requires IsDevice(device, turns, atoms, path)
    ensures Decoded(atoms, false) == Some(path)
  {
    DevicesAreFresh(device);
    LegalIsRead(turns, [DSP, ToDeviceNode(device).value]);
    NodesAreSome(turns);
    assert atoms[1..] == AllAtoms(turns);
    DeviceDecodes(atoms, device, ToDeviceNode(device).value);
  }

  lemma FirstAndRest(atoms: seq<Atom>)
    requires atoms != []
    ensures atoms == [atoms[0]] + atoms[1..]
  {
  }

  lemma ReadIsDevice(atoms: seq<Atom>)
    requires Decoded(atoms, false).Some? && ToDeviceNode(atoms[0].name).Some?
    ensures IsDevicePath(atoms, Decoded(atoms, false).value)
  {
    var device := atoms[0].name;
    var path := [DSP, ToDeviceNode(device).value];
    DevicesAreFresh(device);
    DeviceDecodes(atoms, device, ToDeviceNode(device).value);
    var turns := ReadIsLegal(atoms[1..], path);
    LegalIsRead(turns, path);
    NodesAreSome(turns);
    FirstAndRest(atoms);
    assert IsDevice(device, turns, atoms, Decoded(atoms, false).value);
  }

  lemma BankIsRead(atoms: seq<Atom>, path: Path)
    requires atoms != [] && atoms[0] == Symbol("bank")
    ensures Decoded(atoms, false) == Some(path) <==> IsBankGroup(atoms, path)
  {
    KeywordsAreNoNodes();
    if Decoded(atoms, false) == Some(path) {
      var bank := ReadIndex(atoms[1..], BANK_COUNT, 0).value;
      assert atoms[1..][0] == atoms[1] && atoms[1..][1..] == atoms[2..] && atoms[2..][0] == atoms[2];
      assert atoms == [Symbol("bank"), Integer(bank), Symbol("group")];
      assert [INSTANCE, BANK, FIRST_BANK + bank] + [GROUP] == [INSTANCE, BANK, FIRST_BANK + bank, GROUP];
    }
    if IsBankGroup(atoms, path) {
      var bank: nat :| bank < BANK_COUNT && atoms == [Symbol("bank"), Integer(bank), Symbol("group")];
      assert atoms[1..] == [Integer(bank), Symbol("group")] && atoms[1..][1..] == [Symbol("group")];
      assert [INSTANCE, BANK, FIRST_BANK + bank] + [GROUP] == [INSTANCE, BANK, FIRST_BANK + bank, GROUP];
    }
  }

  /** The decoder accepts exactly the value paths of the grammar, and gives what they mean. */
  lemma DecodedExactly(atoms: seq<Atom>, path: Path)
    ensures Decoded(atoms, false) == Some(path) <==> Means(atoms, path)
  {
    KeywordsAreNoNodes();
    if atoms != [] && atoms[0] == Symbol("bank") {
      BankIsRead(atoms, path);
      if device: string, turns: seq<Turn> :| IsDevice(device, turns, atoms, path) {
        DevicesAreFresh(device);
      }
    } else if atoms != [] && atoms[0].Symbol? && ToDeviceNode(atoms[0].name).Some? {
      DevicesAreFresh(atoms[0].name);
      if Decoded(atoms, false) == Some(path) {
        ReadIsDevice(atoms);
      }
      if device: string, turns: seq<Turn> :| IsDevice(device, turns, atoms, path) {
        DeviceIsRead(device, turns, atoms, path);
      }
    } else {
      assert forall device: string, turns: seq<Turn> :: IsDevice(device, turns, atoms, path) ==>
        atoms[0] == Symbol(device);
    }
  }
}
