/**
  The section sequencer of the frontend (`startCompilation`): the mandatory
  order of the non-custom sections, the checks on each section's size and
  the post-section actions that run once for every section of the order,
  whether it is present or skipped.

  A section is seen here as a frame: its id byte, its declared size, the
  bytes left in the module after the size field, the number of bytes its
  parser consumed, whether it is the custom "name" section and, for the code
  section, the number of function bodies its parser produced. The parsers of
  the section bodies are modelled elsewhere (type, memory, data count, data)
  or not at all.
*/
module WasmOrder {
  import opened UInt
  import opened WasmReader
  import opened WasmSections

  /** The section ids of section 5.5.2 of the WebAssembly Core Specification, and the end marker. */
  datatype SectionType =
    | Custom | Type | Import | Function | Table | Memory | Global | Export | Start | Element
    | DataCount | Code | Data | Placeholder | Unknown(id: u8)

  function SectionTypeOf(id: u8): (t: SectionType)
    ensures t != Placeholder
    ensures t.Unknown? <==> id > 12
  {
    match id
    case 0 => Custom case 1 => Type case 2 => Import case 3 => Function case 4 => Table
    case 5 => Memory case 6 => Global case 7 => Export case 8 => Start case 9 => Element
    case 10 => Code case 11 => Data case 12 => DataCount
    case _ => Unknown(id)
  }

  /** `sectionOrder`: the order of the non-custom sections, then the end marker. */
  const ORDER: seq<SectionType> :=
    [Type, Import, Function, Table, Memory, Global, Export, Start, Element, DataCount, Code, Data, Placeholder]

  const CODE_POSITION: nat := 10
  const DATA_POSITION: nat := 11
  const PLACEHOLDER_POSITION: nat := 12

  /** Where `t` stands in the order; |ORDER| for custom and unknown sections. */
  function Position(t: SectionType): (k: nat)
    ensures k <= |ORDER|
  {
    match t
    case Type => 0 case Import => 1 case Function => 2 case Table => 3 case Memory => 4 case Global => 5
    case Export => 6 case Start => 7 case Element => 8 case DataCount => 9 case Code => 10 case Data => 11
    case Placeholder => 12
    case _ => 13
  }

  /** The order holds every section type at most once: position k holds the type whose position is k. */
  lemma {:induction false} PositionOf(t: SectionType)
    ensures Position(t) < |ORDER| ==> ORDER[Position(t)] == t
    ensures forall k :: 0 <= k < |ORDER| && ORDER[k] == t ==> Position(t) == k
  {
  }

  /** A non-custom section of the module: one of the twelve before the end marker. */
  predicate Known(t: SectionType) {
    Position(t) < PLACEHOLDER_POSITION
  }

  // ---------------------------------------------------------------------
  // The sequencer's state and its steps, as values
  // ---------------------------------------------------------------------

  /**
    `expectedSectionSequenceIndex`, the post-section actions run so far,
    `nameSectionHandled`, and the module information the post-section
    actions read or write.
  */
  datatype Progress = Progress(expected: nat, log: seq<SectionType>, nameHandled: bool,
                               numDataSegments: u32, bodiesProduced: u32,
                               numTotalFunctions: u32, numImportedFunctions: u32)

  /** What a step returns, and the state it leaves behind (also when it throws). */
  datatype Outcome = Outcome(result: Result<()>, after: Progress)

  /** `numFunctionBodiesProduced < numTotalFunctions - numImportedFunctions`, in `uint32_t`. */
  predicate BodiesMissing(produced: u32, total: u32, imported: u32) {
    produced < Wrap32(total as int - imported as int)
  }

  /** `postSectionAction`: the code section checks for missing bodies, the data section settles the segment count. */
  function PostAction(p: Progress, t: SectionType): (o: Outcome)
    ensures o.after.log == p.log + [t] && o.after.expected == p.expected
    ensures o.result.Err? <==> t == Code && BodiesMissing(p.bodiesProduced, p.numTotalFunctions, p.numImportedFunctions)
  {
    var p1 := p.(log := p.log + [t]);
    if t == Code && BodiesMissing(p.bodiesProduced, p.numTotalFunctions, p.numImportedFunctions) then
      Outcome(Err(MissingFunctionBodies), p1)
    else if t == Data && p.numDataSegments == U32_MAX then
      Outcome(Ok(()), p1.(numDataSegments := 0))
    else
      Outcome(Ok(()), p1)
  }

  /**
    `moveToTargetSection`: the post-section action of every section skipped
    on the way to `t`; throws when `t` is not found at or after the expected
    position.
  */
  function Move(p: Progress, t: SectionType): Outcome
    decreases |ORDER| - p.expected
  {
    if p.expected >= |ORDER| then Outcome(Err(DuplicateOrMisorderedSection), p)
    else if ORDER[p.expected] == t then Outcome(Ok(()), p)
    else
      var o := PostAction(p, ORDER[p.expected]);
      if o.result.Err? then o else Move(o.after.(expected := p.expected + 1), t)
  }

  /** One section as the frontend sees it. */
  datatype Frame = Frame(id: u8, size: u32, bytesLeft: nat, consumed: nat, isNameSection: bool,
                         bodiesProduced: u32)

  function TypeOf(f: Frame): SectionType {
    SectionTypeOf(f.id)
  }

  predicate IsName(f: Frame) {
    TypeOf(f) == Custom && f.isNameSection
  }

  /** The name section: at most once, and it moves the sequencer to the end marker. */
  function NameSection(p: Progress): Outcome {
    if p.nameHandled then Outcome(Err(MultipleNameSections), p)
    else Move(p.(nameHandled := true), Placeholder)
  }

  /** One pass of the section loop. */
  function SectionStep(p: Progress, f: Frame): Outcome {
    if f.size == 0 then Outcome(Err(SectionOfSize0), p)
    else if f.size as nat > f.bytesLeft then Outcome(Err(SectionPastModuleEnd), p)
    else if TypeOf(f) == Custom then
      if f.isNameSection then NameSection(p) else Outcome(Ok(()), p)
    else
      match Move(p, TypeOf(f))
      case Outcome(Err(c), q) => Outcome(Err(c), q)
      case Outcome(Ok(_), q) =>
        if TypeOf(f).Unknown? then Outcome(Err(InvalidSectionType), q)
        else
          var q1 := if TypeOf(f) == Code then q.(bodiesProduced := f.bodiesProduced) else q;
          match PostAction(q1, TypeOf(f))
          case Outcome(Err(c), q2) => Outcome(Err(c), q2)
          case Outcome(Ok(_), q2) =>
            var q3 := q2.(expected := q2.expected + 1);
            if f.consumed != f.size as nat then Outcome(Err(SectionSizeMismatch), q3) else Outcome(Ok(()), q3)
  }

  /** The section loop over all frames, then the move to the end marker. */
  function Run(p: Progress, frames: seq<Frame>): Outcome
    decreases |frames|
  {
    if frames == [] then Move(p, Placeholder)
    else
      match SectionStep(p, frames[0])
      case Outcome(Err(c), q) => Outcome(Err(c), q)
      case Outcome(Ok(_), q) => Run(q, frames[1..])
  }

  // ---------------------------------------------------------------------
  // What the sequencer accepts
  // ---------------------------------------------------------------------

  /** The post-section actions run so far are those of the order up to the expected position. */
  predicate Logged(p: Progress) {
    p.expected <= |ORDER| && p.log == ORDER[..p.expected]
  }

  /** Between sections the sequencer never expects a position past the end marker. */
  predicate Tracked(p: Progress) {
    Logged(p) && p.expected <= PLACEHOLDER_POSITION
  }

  /** The state after moving from `p` to position j without a failing post-section action. */
  function Skipped(p: Progress, j: nat): Progress
    requires j <= |ORDER|
  {
    p.(expected := j, log := ORDER[..j],
       numDataSegments := if p.expected <= DATA_POSITION < j && p.numDataSegments == U32_MAX then 0
                          else p.numDataSegments)
  }

  /** Where `moveToTargetSection` can go from `p`: `t` is ahead, and no body is missing if code is skipped. */
  predicate MoveAllowed(p: Progress, t: SectionType) {
    p.expected <= Position(t) < |ORDER|
    && !(p.expected <= CODE_POSITION < Position(t)
         && BodiesMissing(p.bodiesProduced, p.numTotalFunctions, p.numImportedFunctions))
  }

  /**
    Moving to `t` succeeds exactly when `t` stands at or after the expected
    position and, when the code section is skipped on the way, no function
    body is missing; the state is then that of the order up to `t`.
  */
  lemma {:induction false} MoveOutcome(p: Progress, t: SectionType)
    requires Logged(p)
    ensures Move(p, t).result.Ok? <==> MoveAllowed(p, t)
    ensures Move(p, t).result.Ok? ==> Move(p, t).after == Skipped(p, Position(t))
    decreases |ORDER| - p.expected
  {
    PositionOf(t);
    if p.expected < |ORDER| {
      if ORDER[p.expected] == t {
        assert ORDER[..p.expected] == p.log;
      } else {
        var o := PostAction(p, ORDER[p.expected]);
        if o.result.Ok? {
          var q := o.after.(expected := p.expected + 1);
          MoveSkipsOne(p, t, q);
          MoveOutcome(q, t);
        }
      }
    }
  }

  /** Skipping the section at the expected position, whose post-section action succeeds. */
  lemma {:induction false} MoveSkipsOne(p: Progress, t: SectionType, q: Progress)
    requires Logged(p) && p.expected < |ORDER| && ORDER[p.expected] != t
    requires PostAction(p, ORDER[p.expected]).result.Ok?
    requires q == PostAction(p, ORDER[p.expected]).after.(expected := p.expected + 1)
    ensures Logged(q) && Move(p, t) == Move(q, t)
    ensures MoveAllowed(p, t) <==> MoveAllowed(q, t)
    ensures MoveAllowed(p, t) ==> Skipped(q, Position(t)) == Skipped(p, Position(t))
  {
    SliceStep(ORDER, p.expected);
    MoveSkip(p, t, PostAction(p, ORDER[p.expected]));
    OrderAt(p.expected);
    PositionOf(t);
    SkipAllowed(p, t, q, ORDER[p.expected]);
  }

  /** Position k of the order holds a type whose position is k. */
  lemma {:induction false} OrderAt(k: nat)
    requires k < |ORDER|
    ensures Position(ORDER[k]) == k
  {
  }

  lemma {:induction false} SkipAllowed(p: Progress, t: SectionType, q: Progress, s: SectionType)
    requires Position(s) == p.expected < |ORDER| && Position(t) != p.expected
    requires !(s == Code && BodiesMissing(p.bodiesProduced, p.numTotalFunctions, p.numImportedFunctions))
    requires q.expected == p.expected + 1 && q.bodiesProduced == p.bodiesProduced
    requires q.numTotalFunctions == p.numTotalFunctions && q.numImportedFunctions == p.numImportedFunctions
    requires q.numDataSegments == if s == Data && p.numDataSegments == U32_MAX then 0 else p.numDataSegments
    requires q.nameHandled == p.nameHandled
    ensures MoveAllowed(p, t) <==> MoveAllowed(q, t)
    ensures MoveAllowed(p, t) ==> Skipped(q, Position(t)) == Skipped(p, Position(t))
  {
  }

  lemma {:induction false} SliceStep<T>(s: seq<T>, k: nat)
    requires k < |s|
    ensures s[..k + 1] == s[..k] + [s[k]]
  {
  }

  /** One unfolding of `Move` past a section that is not the target. */
  lemma {:induction false} MoveSkip(p: Progress, t: SectionType, o: Outcome)
    requires p.expected < |ORDER| && ORDER[p.expected] != t && o == PostAction(p, ORDER[p.expected])
    ensures o.result.Err? ==> Move(p, t) == o
    ensures o.result.Ok? ==> Move(p, t) == Move(o.after.(expected := p.expected + 1), t)
  {
  }

  /** One unfolding of `Run` at the section with index i. */
  lemma {:induction false} RunSkip(p: Progress, frames: seq<Frame>, i: nat, o: Outcome)
    requires i < |frames| && o == SectionStep(p, frames[i])
    ensures o.result.Err? ==> Run(p, frames[i..]) == o
    ensures o.result.Ok? ==> Run(p, frames[i..]) == Run(o.after, frames[i + 1..])
  {
    assert frames[i..][0] == frames[i] && frames[i..][1..] == frames[i + 1..];
  }

  /** A section whose size is positive and fits; a non-custom one is a known section, consumed exactly. */
  predicate Framed(f: Frame) {
    0 < f.size as nat <= f.bytesLeft
    && (TypeOf(f) != Custom ==> Known(TypeOf(f)) && f.consumed == f.size as nat)
  }

  predicate AllFramed(frames: seq<Frame>) {
    forall i :: 0 <= i < |frames| ==> Framed(frames[i])
  }

  /** Every non-custom section stands at or after position `from`. */
  predicate NonCustomFrom(frames: seq<Frame>, from: nat) {
    forall i :: 0 <= i < |frames| && TypeOf(frames[i]) != Custom ==> from <= Position(TypeOf(frames[i]))
  }

  /** The non-custom sections stand at strictly increasing positions of the order. */
  predicate Increasing(frames: seq<Frame>) {
    forall i, j :: 0 <= i < j < |frames| && TypeOf(frames[i]) != Custom && TypeOf(frames[j]) != Custom ==>
      Position(TypeOf(frames[i])) < Position(TypeOf(frames[j]))
  }

  /** Only custom sections other than a second name section follow the name section. */
  predicate NameLast(frames: seq<Frame>) {
    forall i, j :: 0 <= i < j < |frames| && IsName(frames[i]) ==> TypeOf(frames[j]) == Custom && !IsName(frames[j])
  }

  predicate PlainCustomOnly(frames: seq<Frame>) {
    forall i :: 0 <= i < |frames| ==> TypeOf(frames[i]) == Custom && !IsName(frames[i])
  }

  /**
    The sections a sequencer that expects position `from` (and has or has not
    seen the name section) accepts, apart from missing function bodies.
  */
  predicate InOrder(frames: seq<Frame>, from: nat, named: bool) {
    AllFramed(frames)
    && if named then PlainCustomOnly(frames)
       else NonCustomFrom(frames, from) && Increasing(frames) && NameLast(frames)
  }

  /** The function bodies counted when the code section's post-section action runs. */
  function CodeBodies(frames: seq<Frame>, default: u32): u32 {
    if frames == [] then default
    else if TypeOf(frames[0]) == Code then frames[0].bodiesProduced
    else CodeBodies(frames[1..], default)
  }

  predicate BodiesComplete(p: Progress, frames: seq<Frame>) {
    p.expected <= CODE_POSITION ==>
      !BodiesMissing(CodeBodies(frames, p.bodiesProduced), p.numTotalFunctions, p.numImportedFunctions)
  }

  /** The state after a section at position j, its post-section action included. */
  function Passed(p: Progress, j: nat, bodies: u32): Progress
    requires j < |ORDER|
  {
    var q := Skipped(p, j + 1);
    q.(bodiesProduced := bodies)
  }

  /** What one pass of the section loop accepts, and the state it leaves. */
  lemma {:induction false} StepOutcome(p: Progress, f: Frame)
    requires Ready(p)
    ensures var o := SectionStep(p, f);
      var t := TypeOf(f);
      var missing := BodiesMissing(p.bodiesProduced, p.numTotalFunctions, p.numImportedFunctions);
      && (t == Custom && !f.isNameSection ==> (o.result.Ok? <==> Framed(f)) && o.after == p)
      && (IsName(f) ==>
            (o.result.Ok? <==> Framed(f) && !p.nameHandled && !(p.expected <= CODE_POSITION && missing))
            && (o.result.Ok? ==> o.after == Skipped(p.(nameHandled := true), PLACEHOLDER_POSITION)))
      && (t != Custom ==>
            (o.result.Ok? <==>
               Framed(f) && !p.nameHandled && p.expected <= Position(t)
               && !(p.expected <= CODE_POSITION < Position(t) && missing)
               && !(t == Code && BodiesMissing(f.bodiesProduced, p.numTotalFunctions, p.numImportedFunctions)))
            && (o.result.Ok? ==>
                  o.after == Passed(p, Position(t), if t == Code then f.bodiesProduced else p.bodiesProduced)))
  {
    if IsName(f) {
      StepName(p, f);
    } else if TypeOf(f) != Custom {
      StepSection(p, f);
    }
  }

  /** Between sections: tracked, and past the name section only the end marker is expected. */
  predicate Ready(p: Progress) {
    Tracked(p) && (p.nameHandled ==> p.expected == PLACEHOLDER_POSITION)
  }

  lemma {:induction false} StepName(p: Progress, f: Frame)
    requires Ready(p) && IsName(f)
    ensures var o := SectionStep(p, f);
      && (o.result.Ok? <==>
            Framed(f) && !p.nameHandled
            && !(p.expected <= CODE_POSITION
                 && BodiesMissing(p.bodiesProduced, p.numTotalFunctions, p.numImportedFunctions)))
      && (o.result.Ok? ==> o.after == Skipped(p.(nameHandled := true), PLACEHOLDER_POSITION))
  {
    if 0 < f.size as nat <= f.bytesLeft && !p.nameHandled {
      MoveOutcome(p.(nameHandled := true), Placeholder);
    }
  }

  lemma {:induction false} StepSection(p: Progress, f: Frame)
    requires Ready(p) && TypeOf(f) != Custom
    ensures var o := SectionStep(p, f);
      var t := TypeOf(f);
      && (o.result.Ok? <==>
            Framed(f) && !p.nameHandled && p.expected <= Position(t)
            && !(p.expected <= CODE_POSITION < Position(t)
                 && BodiesMissing(p.bodiesProduced, p.numTotalFunctions, p.numImportedFunctions))
            && !(t == Code && BodiesMissing(f.bodiesProduced, p.numTotalFunctions, p.numImportedFunctions)))
      && (o.result.Ok? ==>
            o.after == Passed(p, Position(t), if t == Code then f.bodiesProduced else p.bodiesProduced))
  {
    var t := TypeOf(f);
    if 0 < f.size as nat <= f.bytesLeft {
      MoveOutcome(p, t);
      PositionOf(t);
      var m := Move(p, t);
      if m.result.Ok? && !t.Unknown? {
        SliceStep(ORDER, Position(t));
      }
    }
  }

  /** A custom section other than the name section adds only its size check. */
  lemma {:induction false} InOrderPlain(frames: seq<Frame>, from: nat, named: bool, default: u32)
    requires frames != [] && TypeOf(frames[0]) == Custom && !frames[0].isNameSection
    ensures InOrder(frames, from, named) <==> Framed(frames[0]) && InOrder(frames[1..], from, named)
    ensures CodeBodies(frames, default) == CodeBodies(frames[1..], default)
  {
    var rest := frames[1..];
    assert forall i :: 0 < i < |frames| ==> frames[i] == rest[i - 1];
  }

  /** After the name section only custom sections other than the name section may follow. */
  lemma {:induction false} InOrderName(frames: seq<Frame>, from: nat, named: bool)
    requires frames != [] && IsName(frames[0])
    ensures InOrder(frames, from, named) <==>
      Framed(frames[0]) && !named && InOrder(frames[1..], PLACEHOLDER_POSITION, true)
  {
    var rest := frames[1..];
    assert forall i :: 0 < i < |frames| ==> frames[i] == rest[i - 1];
    if Framed(frames[0]) && !named && InOrder(rest, PLACEHOLDER_POSITION, true) {
      assert forall i :: 0 <= i < |frames| ==> Framed(frames[i]);
      assert forall i :: 0 <= i < |frames| ==> TypeOf(frames[i]) == Custom;
    }
    if InOrder(frames, from, named) && !named {
      assert forall j :: 0 < j < |frames| ==> TypeOf(frames[j]) == Custom && !IsName(frames[j]);
    }
  }

  /** A non-custom section at position j: the sections after it stand after j. */
  lemma {:induction false} InOrderSection(frames: seq<Frame>, from: nat, named: bool)
    requires frames != [] && TypeOf(frames[0]) != Custom && Known(TypeOf(frames[0]))
    ensures var j := Position(TypeOf(frames[0]));
      InOrder(frames, from, named) <==>
        Framed(frames[0]) && !named && from <= j && InOrder(frames[1..], j + 1, false)
  {
    var j := Position(TypeOf(frames[0]));
    if InOrder(frames, from, named) {
      InOrderRest(frames, from, named);
    }
    if Framed(frames[0]) && !named && from <= j && InOrder(frames[1..], j + 1, false) {
      InOrderFront(frames, from);
    }
  }

  lemma {:induction false} InOrderRest(frames: seq<Frame>, from: nat, named: bool)
    requires frames != [] && TypeOf(frames[0]) != Custom && Known(TypeOf(frames[0]))
    requires InOrder(frames, from, named)
    ensures var j := Position(TypeOf(frames[0]));
      Framed(frames[0]) && !named && from <= j && InOrder(frames[1..], j + 1, false)
  {
    var rest := frames[1..];
    var j := Position(TypeOf(frames[0]));
    forall i | 0 <= i < |rest|
      ensures Framed(rest[i])
      ensures TypeOf(rest[i]) != Custom ==> j + 1 <= Position(TypeOf(rest[i]))
    {
      assert rest[i] == frames[i + 1];
    }
    forall a, b | 0 <= a < b < |rest| && TypeOf(rest[a]) != Custom && TypeOf(rest[b]) != Custom
      ensures Position(TypeOf(rest[a])) < Position(TypeOf(rest[b]))
    {
      assert rest[a] == frames[a + 1] && rest[b] == frames[b + 1];
    }
    forall a, b | 0 <= a < b < |rest| && IsName(rest[a])
      ensures TypeOf(rest[b]) == Custom && !IsName(rest[b])
    {
      assert rest[a] == frames[a + 1] && rest[b] == frames[b + 1];
    }
  }

  lemma {:induction false} InOrderFront(frames: seq<Frame>, from: nat)
    requires frames != [] && TypeOf(frames[0]) != Custom && Known(TypeOf(frames[0]))
    requires var j := Position(TypeOf(frames[0]));
      Framed(frames[0]) && from <= j && InOrder(frames[1..], j + 1, false)
    ensures InOrder(frames, from, false)
  {
    var rest := frames[1..];
    forall i | 0 <= i < |frames|
      ensures Framed(frames[i])
      ensures TypeOf(frames[i]) != Custom ==> from <= Position(TypeOf(frames[i]))
    {
      if i > 0 {
        assert frames[i] == rest[i - 1];
      }
    }
    forall a, b | 0 <= a < b < |frames| && TypeOf(frames[a]) != Custom && TypeOf(frames[b]) != Custom
      ensures Position(TypeOf(frames[a])) < Position(TypeOf(frames[b]))
    {
      assert frames[b] == rest[b - 1];
      if a > 0 {
        assert frames[a] == rest[a - 1];
      }
    }
    forall a, b | 0 <= a < b < |frames| && IsName(frames[a])
      ensures TypeOf(frames[b]) == Custom && !IsName(frames[b])
    {
      assert frames[a] == rest[a - 1] && frames[b] == rest[b - 1];
    }
  }

  /** No code section among the frames: the post-section action counts the bodies already produced. */
  lemma {:induction false} NoCodeSection(frames: seq<Frame>, default: u32)
    requires forall i :: 0 <= i < |frames| ==> TypeOf(frames[i]) != Code
    ensures CodeBodies(frames, default) == default
    decreases |frames|
  {
    if frames != [] {
      assert forall i :: 0 <= i < |frames| - 1 ==> frames[1..][i] == frames[i + 1];
      NoCodeSection(frames[1..], default);
    }
  }

  /** Sections that all stand after the code section include no code section. */
  lemma {:induction false} PastCode(frames: seq<Frame>, from: nat, named: bool)
    requires InOrder(frames, from, named) && from > CODE_POSITION
    ensures forall i :: 0 <= i < |frames| ==> TypeOf(frames[i]) != Code
  {
  }

  /** The sections the sequencer accepts from `p`. */
  predicate Accepts(p: Progress, frames: seq<Frame>) {
    InOrder(frames, p.expected, p.nameHandled) && BodiesComplete(p, frames)
  }

  /** The state once every post-section action of the order has run, starting from `p`. */
  predicate Finished(p: Progress, q: Progress) {
    && q.expected == PLACEHOLDER_POSITION
    && q.log == ORDER[..PLACEHOLDER_POSITION]
    && q.numDataSegments == if p.expected <= DATA_POSITION && p.numDataSegments == U32_MAX then 0 else p.numDataSegments
  }

  predicate RunSpec(p: Progress, frames: seq<Frame>, o: Outcome) {
    (o.result.Ok? <==> Accepts(p, frames)) && (o.result.Ok? ==> Finished(p, o.after))
  }

  /**
    The sequencer accepts the sections exactly when each has a positive size
    that fits in the module and is consumed exactly, the non-custom ones stand
    at strictly increasing positions of the order, nothing but plain custom
    sections follows the name section, and the code section's post-section
    action finds no function body missing. It then has run the post-section
    action of every section of the order once, in order, and settled the
    data segment count.
  */
  lemma {:induction false} RunOutcome(p: Progress, frames: seq<Frame>)
    requires Ready(p)
    ensures Run(p, frames).result.Ok? <==> InOrder(frames, p.expected, p.nameHandled) && BodiesComplete(p, frames)
    ensures Run(p, frames).result.Ok? ==>
      && Run(p, frames).after.expected == PLACEHOLDER_POSITION
      && Run(p, frames).after.log == ORDER[..PLACEHOLDER_POSITION]
      && Run(p, frames).after.numDataSegments ==
           if p.expected <= DATA_POSITION && p.numDataSegments == U32_MAX then 0 else p.numDataSegments
    decreases |frames|
  {
    if frames == [] {
      MoveOutcome(p, Placeholder);
    } else {
      var o := SectionStep(p, frames[0]);
      var r := Run(o.after, frames[1..]);
      StepOutcome(p, frames[0]);
      if o.result.Ok? {
        StepReady(p, frames[0]);
        RunOutcome(o.after, frames[1..]);
        assert RunSpec(o.after, frames[1..], r);
      }
      RunCons(p, frames, o, r);
      RunFirst(p, frames);
    }
  }

  /** The run stops at a failing section and otherwise goes on from the state it leaves. */
  lemma {:induction false} RunFirst(p: Progress, frames: seq<Frame>)
    requires frames != []
    ensures var o := SectionStep(p, frames[0]);
            Run(p, frames) == if o.result.Ok? then Run(o.after, frames[1..]) else o
  {
    var o := SectionStep(p, frames[0]);
    assert o == Outcome(o.result, o.after);
  }

  /** A pass that succeeds leaves the sequencer ready for the next section. */
  lemma {:induction false} StepReady(p: Progress, f: Frame)
    requires Ready(p) && SectionStep(p, f).result.Ok?
    ensures Ready(SectionStep(p, f).after)
  {
    StepOutcome(p, f);
  }

  /** One section, then the rest: the accepted sections and the final state, from those of the rest. */
  lemma {:induction false} RunCons(p: Progress, frames: seq<Frame>, o: Outcome, r: Outcome)
    requires Ready(p) && frames != [] && o == SectionStep(p, frames[0])
    requires o.result.Ok? ==> RunSpec(o.after, frames[1..], r)
    ensures RunSpec(p, frames, if o.result.Ok? then r else o)
  {
    var f := frames[0];
    var t := TypeOf(f);
    if t == Custom && !f.isNameSection {
      RunPlain(p, frames, o, r);
    } else if IsName(f) {
      RunName(p, frames, o, r);
    } else if Known(t) {
      RunSection(p, frames, o, r);
    } else {
      StepSection(p, f);
    }
  }

  lemma {:induction false} RunPlain(p: Progress, frames: seq<Frame>, o: Outcome, r: Outcome)
    requires Ready(p) && frames != [] && o == SectionStep(p, frames[0])
    requires TypeOf(frames[0]) == Custom && !frames[0].isNameSection
    requires o.result.Ok? ==> RunSpec(o.after, frames[1..], r)
    ensures RunSpec(p, frames, if o.result.Ok? then r else o)
  {
    StepOutcome(p, frames[0]);
    InOrderPlain(frames, p.expected, p.nameHandled, p.bodiesProduced);
  }

  lemma {:induction false} RunName(p: Progress, frames: seq<Frame>, o: Outcome, r: Outcome)
    requires Ready(p) && frames != [] && o == SectionStep(p, frames[0])
    requires IsName(frames[0])
    requires o.result.Ok? ==> RunSpec(o.after, frames[1..], r)
    ensures RunSpec(p, frames, if o.result.Ok? then r else o)
  {
    var rest := frames[1..];
    StepName(p, frames[0]);
    InOrderName(frames, p.expected, p.nameHandled);
    if InOrder(rest, PLACEHOLDER_POSITION, true) {
      PastCode(rest, PLACEHOLDER_POSITION, true);
      NoCodeSection(rest, p.bodiesProduced);
    }
  }

  lemma {:induction false} RunSection(p: Progress, frames: seq<Frame>, o: Outcome, r: Outcome)
    requires Ready(p) && frames != [] && o == SectionStep(p, frames[0])
    requires TypeOf(frames[0]) != Custom && Known(TypeOf(frames[0]))
    requires o.result.Ok? ==> RunSpec(o.after, frames[1..], r)
    ensures RunSpec(p, frames, if o.result.Ok? then r else o)
  {
    var rest := frames[1..];
    var j := Position(TypeOf(frames[0]));
    StepSection(p, frames[0]);
    InOrderSection(frames, p.expected, p.nameHandled);
    if j > CODE_POSITION && InOrder(rest, j + 1, false) {
      PastCode(rest, j + 1, false);
      NoCodeSection(rest, p.bodiesProduced);
    }
  }

  // ---------------------------------------------------------------------
  // The sequencer as the frontend runs it
  // ---------------------------------------------------------------------

  /**
    The locals of `startCompilation` that order the sections
    (`expectedSectionSequenceIndex`, `nameSectionHandled`), the post-section
    actions run so far, and the module information those actions use.
  */
  class SectionSequencer {
    var expected: nat
    var actions: seq<SectionType>
    var nameSectionHandled: bool
    const info: ModuleInfo

    predicate Valid()
      reads this
    {
      expected <= |ORDER|
    }

    /** The sequencer's state as a value. */
    function State(): Progress
      reads this, info
    {
      Progress(expected, actions, nameSectionHandled, info.numDataSegments, info.numFunctionBodiesProduced,
               info.numTotalFunctions, info.numImportedFunctions)
    }

    constructor (info: ModuleInfo)
      ensures this.info == info && expected == 0 && actions == [] && !nameSectionHandled
    {
      this.info := info;
      expected := 0;
      actions := [];
      nameSectionHandled := false;
    }

    /** `postSectionAction`. */
    method PostSectionAction(t: SectionType) returns (r: Result<()>)
      modifies this, info
      ensures Outcome(r, State()) == PostAction(old(State()), t)
      ensures SameTypes(info) && SameMemory(info)
    {
      actions := actions + [t];
      if t == Code && BodiesMissing(info.numFunctionBodiesProduced, info.numTotalFunctions, info.numImportedFunctions) {
        return Err(MissingFunctionBodies);
      }
      if t == Data && info.numDataSegments == U32_MAX {
        info.numDataSegments := 0;
      }
      r := Ok(());
    }

    /** `moveToTargetSection`. */
    method MoveToTargetSection(t: SectionType) returns (r: Result<()>)
      requires Valid()
      modifies this, info
      ensures Valid() && (r.Ok? ==> expected < |ORDER|)
      ensures Outcome(r, State()) == Move(old(State()), t)
      ensures SameTypes(info) && SameMemory(info)
    {
      while expected < |ORDER|
        invariant Valid()
        invariant Move(old(State()), t) == Move(State(), t)
        invariant SameTypes(info) && SameMemory(info)
        decreases |ORDER| - expected
      {
        if ORDER[expected] == t {
          return Ok(());
        }
        ghost var before := State();
        r := PostSectionAction(ORDER[expected]);
        ghost var mid := State();
        MoveSkip(before, t, Outcome(r, mid));
        if r.Err? {
          return;
        }
        expected := expected + 1;
        assert State() == mid.(expected := before.expected + 1);
      }
      r := Err(DuplicateOrMisorderedSection);
    }

    /** The action run before the name section is parsed. */
    method NameSectionAction() returns (r: Result<()>)
      requires Valid()
      modifies this, info
      ensures Valid()
      ensures Outcome(r, State()) == NameSection(old(State()))
      ensures SameTypes(info) && SameMemory(info)
    {
      if nameSectionHandled {
        return Err(MultipleNameSections);
      }
      nameSectionHandled := true;
      r := MoveToTargetSection(Placeholder);
    }

    /**
      One pass of the section loop, once the section's id, size and the bytes
      left have been read; the section's parser is represented by what the
      frame records of it.
    */
    method SectionPass(f: Frame) returns (r: Result<()>)
      requires Valid()
      modifies this, info
      ensures Valid()
      ensures Outcome(r, State()) == SectionStep(old(State()), f)
      ensures SameTypes(info) && SameMemory(info)
    {
      if f.size == 0 {
        return Err(SectionOfSize0);
      }
      if f.size as nat > f.bytesLeft {
        return Err(SectionPastModuleEnd);
      }
      var t := TypeOf(f);
      if t == Custom {
        if f.isNameSection {
          r := NameSectionAction();
        } else {
          r := Ok(());
        }
        return;
      }
      r := MoveToTargetSection(t);
      if r.Err? {
        return;
      }
      if t.Unknown? {
        return Err(InvalidSectionType);
      }
      if t == Code {
        info.numFunctionBodiesProduced := f.bodiesProduced;
      }
      r := PostSectionAction(t);
      if r.Err? {
        return;
      }
      expected := expected + 1;
      if f.consumed != f.size as nat {
        return Err(SectionSizeMismatch);
      }
    }

    /** The section loop of `startCompilation` and the final move to the end marker. */
    method ParseSections(frames: seq<Frame>) returns (r: Result<()>)
      requires Valid()
      modifies this, info
      ensures Outcome(r, State()) == Run(old(State()), frames)
      ensures SameTypes(info) && SameMemory(info)
    {
      var i := 0;
      while i < |frames|
        invariant i <= |frames| && Valid()
        invariant Run(old(State()), frames) == Run(State(), frames[i..])
        invariant SameTypes(info) && SameMemory(info)
      {
        ghost var before := State();
        r := SectionPass(frames[i]);
        RunSkip(before, frames, i, Outcome(r, State()));
        if r.Err? {
          return;
        }
        i := i + 1;
      }
      r := MoveToTargetSection(Placeholder);
    }
  }
}
