/** From the recognizer's plan and its bindings to verified targets in the host's paragraphs. */
module RecognitionMapping {
  import opened Results
  import opened Utf16
  import HostText
  import opened StructureModel
  import opened StructureHost
  import opened StructurePlan
  import opened StructurePlanFits

  const CONTRACT := "host-text-v1"

  /** A number of the recognizer's JSON: absent or null, whole, or neither. */
  datatype Number = Missing | Whole(value: int) | Fractional

  datatype Status = Confirmed | Review | Unresolved

  /** Where the recognizer found a block in the host's document. */
  datatype Binding = Binding(block: int, status: Status, host: Option<int>, start: Number, end: Number,
                             canonicalStart: Number, canonicalEnd: Number)

  /** The physical paragraph of a block; an explicit null counts as paragraph 0 when it is looked up. */
  datatype Physical = Undefined | Null | Index(value: int)

  /** `inFlow`: neither a table, an image nor a letterhead, and with a source paragraph; `located`: its source locator
      is verified and confirmed; `doubtful`: the recognizer asks for a review. */
  datatype Block = Block(inFlow: bool, index: int, typeId: string, physical: Physical, rawStart: Number,
                         rangeStart: Number, rawEnd: Number, rangeEnd: Number, located: bool,
                         rawHash: Option<Digest>, canonicalHash: Option<Digest>, totalCount: Option<int>,
                         locatedCount: Option<int>, confirmedCount: Option<int>, doubtful: bool)

  datatype WheelPlan = WheelPlan(contract: string, blocks: seq<Block>, binding: Option<(string, seq<Binding>)>)

  datatype Reason = LocatorUnverified | BindingNotConfirmed

  /** A recognized paragraph: a range of one host paragraph, with what the planner and the formatter need of it. */
  datatype Target = Target(block: int, host: int, physical: Option<int>, start: nat, end: nat, hash: Digest,
                           kind: RecognizedType, fragmentHash: Digest, sourceStart: nat, sourceEnd: nat, length: nat,
                           occurrence: nat, needsReview: bool, mixed: bool, apply: bool, canonicalStart: nat,
                           canonicalEnd: nat, status: Status, total: int, located: int, confirmed: int)

  datatype Recognition = Recognition(targets: seq<Target>, unresolved: seq<(int, Reason)>)

  /** `FragmentMissing`: the length of a fragment that the raw range does not cut out is asked for. */
  datatype MapError = ContractMismatch | FragmentMissing

  // ---------------------------------------------------------------- reading the plan

  function AsStart(value: Number): Option<nat> {
    if value.Whole? && value.value >= 0 then Some(value.value) else None
  }

  function AsEnd(value: Number, start: Option<nat>): Option<nat> {
    if value.Whole? && start.Some? && value.value > start.value then Some(value.value) else None
  }

  function Or(value: Number, other: Number): Number {
    if value.Missing? then other else value
  }

  function OrInt(value: Option<int>, other: int): int {
    if value.None? then other else value.value
  }

  function AtLeastOne(n: int): int { if n < 1 then 1 else n }

  function KindOf(typeId: string): RecognizedType {
    if typeId == "heading1" then Heading(1)
    else if typeId == "heading2" then Heading(2)
    else if typeId == "heading3" then Heading(3)
    else if typeId == "heading4" then Heading(4)
    else if typeId == "body" || typeId == "responsibility_line" then Body
    else OtherType
  }

  /** Later bindings of a block replace earlier ones. */
  function BindingOf(bindings: seq<Binding>, index: int): Option<Binding> {
    if bindings == [] then None
    else if bindings[|bindings| - 1].block == index then Some(bindings[|bindings| - 1])
    else BindingOf(bindings[..|bindings| - 1], index)
  }

  /** The blocks of one physical paragraph. */
  function Group(blocks: seq<Block>, physical: int): seq<Block> {
    if blocks == [] then []
    else
      var last := blocks[|blocks| - 1];
      Group(blocks[..|blocks| - 1], physical) + if last.physical == Index(physical) then [last] else []
  }

  function Expected(group: seq<Block>): int
    requires group != []
  {
    var last := OrInt(group[|group| - 1].totalCount, 1);
    if |group| == 1 then last
    else
      var before := Expected(group[..|group| - 1]);
      if last > before then last else before
  }

  predicate IsConfirmed(bindings: seq<Binding>, block: Block) {
    var binding := BindingOf(bindings, block.index);
    binding.Some? && binding.value.status == Confirmed
  }

  function ConfirmedOf(bindings: seq<Binding>, group: seq<Block>): nat {
    if group == [] then 0
    else
      ConfirmedOf(bindings, group[..|group| - 1]) + if IsConfirmed(bindings, group[|group| - 1]) then 1 else 0
  }

  /** Every segment of the physical paragraph is there, and every one is confirmed. */
  predicate GroupComplete(bindings: seq<Binding>, group: seq<Block>) {
    group != [] && |group| == Expected(group) == ConfirmedOf(bindings, group)
  }

  function PhysicalNumber(block: Block): Option<int> {
    match block.physical
    case Undefined => None
    case Null => Some(0)
    case Index(n) => Some(n)
  }

  predicate Complete(plan: WheelPlan, block: Block)
    requires plan.binding.Some?
  {
    var physical := PhysicalNumber(block);
    physical.Some? && GroupComplete(plan.binding.value.1, Group(plan.blocks, physical.value))
  }

  // ---------------------------------------------------------------- one block

  datatype Verdict = Skipped | Open(reason: Reason) | Breaks
                   | Found(host: Source, start: nat, end: nat, fragment: Text, canonicalStart: nat,
                           canonicalEnd: nat, sourceStart: nat, sourceEnd: nat, status: Status)

  /** The hash of what a range cuts out, if it is well formed and cuts out something. */
  predicate HashIs(fragment: Option<Text>, hash: Option<Digest>) {
    fragment.Some? && hash == Some(Sha256(fragment.value))
  }

  function Judge(nfkc: HostText.Normalizer, snapshot: seq<Source>, bindings: seq<Binding>, block: Block): Verdict {
    var sourceStart := AsStart(Or(block.rawStart, block.rangeStart));
    var sourceEnd := AsEnd(Or(block.rawEnd, block.rangeEnd), sourceStart);
    var binding := BindingOf(bindings, block.index);
    if !block.inFlow then Skipped
    else if !block.located || sourceStart.None? || sourceEnd.None? then Open(LocatorUnverified)
    else if binding.None? || binding.value.status == Unresolved || binding.value.host.None? then
      Open(BindingNotConfirmed)
    else
      var b := binding.value;
      var start, canonicalStart := AsStart(b.start), AsStart(b.canonicalStart);
      var end, canonicalEnd := AsEnd(b.end, start), AsEnd(b.canonicalEnd, canonicalStart);
      var host := SourceAt(snapshot, b.host.value);
      if host.None? || host.value.isInTable || end.None? || canonicalEnd.None? then Open(BindingNotConfirmed)
      else
        var text := host.value.text;
        var fragment := HostText.RawSlice(text, start.value, end.value);
        var canonical := HostText.RawSlice(HostText.Canon(nfkc, text, |text|), canonicalStart.value,
                                           canonicalEnd.value);
        if b.status == Confirmed && !HashIs(fragment, block.rawHash) then Open(BindingNotConfirmed)
        else if b.status == Review && !HashIs(canonical, block.canonicalHash) then Open(BindingNotConfirmed)
        else if fragment.None? then Breaks
        else Found(host.value, start.value, end.value, fragment.value, canonicalStart.value, canonicalEnd.value,
                   sourceStart.value, sourceEnd.value, b.status)
  }

  function TargetOf(block: Block, v: Verdict, complete: bool, occurrence: nat): Target
    requires v.Found?
  {
    var total := AtLeastOne(OrInt(block.totalCount, 1));
    var mixed := total > 1 || v.start != 0 || v.end != |v.host.text|;
    var apply := v.status == Confirmed && complete && !mixed;
    Target(block.index, v.host.index, PhysicalNumber(block), v.start, v.end, Sha256(v.host.text), KindOf(block.typeId),
           Sha256(v.fragment), v.sourceStart, v.sourceEnd, |v.fragment|, occurrence,
           v.status != Confirmed || !apply || block.doubtful, mixed, apply, v.canonicalStart, v.canonicalEnd, v.status,
           total, AtLeastOne(OrInt(block.locatedCount, total)),
           AtLeastOne(OrInt(block.confirmedCount, if complete then total else 1)))
  }

  /** How many targets have this fragment. */
  function Occurrences(targets: seq<Target>, hash: Digest): nat {
    if targets == [] then 0
    else
      Occurrences(targets[..|targets| - 1], hash) + if targets[|targets| - 1].fragmentHash == hash then 1 else 0
  }

  // ---------------------------------------------------------------- the whole plan

  /** What the first n blocks come to, unless one of them makes the mapping throw. */
  function MappedUpTo(nfkc: HostText.Normalizer, snapshot: seq<Source>, plan: WheelPlan, n: nat): Option<Recognition>
    requires plan.binding.Some? && n <= |plan.blocks|
  {
    if n == 0 then Some(Recognition([], []))
    else
      match MappedUpTo(nfkc, snapshot, plan, n - 1)
      case None => None
      case Some(before) =>
        var block := plan.blocks[n - 1];
        var v := Judge(nfkc, snapshot, plan.binding.value.1, block);
        match v
        case Skipped => Some(before)
        case Open(reason) => Some(before.(unresolved := before.unresolved + [(block.index, reason)]))
        case Breaks => None
        case Found(_, _, _, fragment, _, _, _, _, _) =>
          Some(before.(targets := before.targets
                                  + [TargetOf(block, v, Complete(plan, block),
                                              Occurrences(before.targets, Sha256(fragment)))]))
  }

  predicate SameContract(plan: WheelPlan) {
    plan.contract == CONTRACT && plan.binding.Some? && plan.binding.value.0 == CONTRACT
  }

  function Mapped(nfkc: HostText.Normalizer, snapshot: seq<Source>, plan: WheelPlan): Result<Recognition, MapError> {
    if !SameContract(plan) then Failure(ContractMismatch)
    else match MappedUpTo(nfkc, snapshot, plan, |plan.blocks|)
      case None => Failure(FragmentMissing)
      case Some(recognition) => Success(recognition)
  }

  // ---------------------------------------------------------------- the loops

  /** The map from blocks to bindings. */
  method BindBlocks(bindings: seq<Binding>) returns (r: map<int, Binding>)
    ensures forall k :: BindingOf(bindings, k) == if k in r then Some(r[k]) else None
  {
    r := map[];
    for i := 0 to |bindings|
      invariant forall k :: BindingOf(bindings[..i], k) == if k in r then Some(r[k]) else None
    {
      assert bindings[..i + 1][..i] == bindings[..i];
      r := r[bindings[i].block := bindings[i]];
    }
    assert bindings[..|bindings|] == bindings;
  }

  lemma GroupOfNone()
    ensures forall k :: Group([], k) == []
  {
  }

  lemma GroupMore(blocks: seq<Block>, i: nat)
    requires i < |blocks|
    ensures forall k :: Group(blocks[..i + 1], k) ==
                        if blocks[i].physical == Index(k) then Group(blocks[..i], k) + [blocks[i]]
                        else Group(blocks[..i], k)
  {
    assert blocks[..i + 1][..i] == blocks[..i];
  }

  /** The blocks by physical paragraph, and the paragraphs in order of first appearance. */
  method GroupBlocks(blocks: seq<Block>) returns (order: seq<int>, grouped: map<int, seq<Block>>)
    ensures forall k :: Group(blocks, k) == if k in grouped then grouped[k] else []
    ensures forall k :: (k in grouped <==> k in order) && (k in grouped ==> grouped[k] != [])
  {
    order, grouped := [], map[];
    GroupOfNone();
    hide Group;
    for i := 0 to |blocks|
      invariant forall k :: Group(blocks[..i], k) == if k in grouped then grouped[k] else []
      invariant forall k :: (k in grouped <==> k in order) && (k in grouped ==> grouped[k] != [])
    {
      var block := blocks[i];
      GroupMore(blocks, i);
      if block.physical.Index? {
        var physical := block.physical.value;
        if physical !in grouped {
          order, grouped := order + [physical], grouped[physical := [block]];
        } else {
          grouped := grouped[physical := grouped[physical] + [block]];
        }
      }
    }
    assert blocks[..|blocks|] == blocks;
  }

  method GroupIsComplete(bindings: seq<Binding>, bound: map<int, Binding>, group: seq<Block>) returns (complete: bool)
    requires group != [] && forall k :: BindingOf(bindings, k) == if k in bound then Some(bound[k]) else None
    ensures complete == GroupComplete(bindings, group)
  {
    var expected, confirmed := OrInt(group[0].totalCount, 1), 0;
    if group[0].index in bound && bound[group[0].index].status == Confirmed {
      confirmed := 1;
    }
    assert group[..1][..0] == [];
    for i := 1 to |group|
      invariant expected == Expected(group[..i]) && confirmed == ConfirmedOf(bindings, group[..i])
    {
      assert group[..i + 1][..i] == group[..i];
      var total := OrInt(group[i].totalCount, 1);
      if total > expected {
        expected := total;
      }
      if group[i].index in bound && bound[group[i].index].status == Confirmed {
        confirmed := confirmed + 1;
      }
    }
    assert group[..|group|] == group;
    complete := |group| == expected && confirmed == expected;
  }

  method CompleteGroups(bindings: seq<Binding>, bound: map<int, Binding>, order: seq<int>,
                        grouped: map<int, seq<Block>>)
    returns (completed: map<int, bool>)
    requires forall k :: BindingOf(bindings, k) == if k in bound then Some(bound[k]) else None
    requires forall k :: k in order ==> k in grouped && grouped[k] != []
    ensures forall k :: k in completed <==> k in order
    ensures forall k :: k in order ==> completed[k] == GroupComplete(bindings, grouped[k])
  {
    completed := map[];
    for i := 0 to |order|
      invariant forall k :: k in completed <==> k in order[..i]
      invariant forall k :: k in completed ==> k in grouped && completed[k] == GroupComplete(bindings, grouped[k])
    {
      var physical := order[i];
      assert physical in order;
      var complete := GroupIsComplete(bindings, bound, grouped[physical]);
      completed := completed[physical := complete];
      assert order[..i + 1] == order[..i] + [order[i]];
    }
    assert order[..|order|] == order;
  }

  method JudgeBlock(nfkc: HostText.Normalizer, snapshot: seq<Source>, bindings: seq<Binding>,
                    bound: map<int, Binding>, block: Block)
    returns (v: Verdict)
    requires forall k :: BindingOf(bindings, k) == if k in bound then Some(bound[k]) else None
    ensures v == Judge(nfkc, snapshot, bindings, block)
  {
    if !block.inFlow {
      return Skipped;
    }
    var sourceStart := AsStart(Or(block.rawStart, block.rangeStart));
    var sourceEnd := AsEnd(Or(block.rawEnd, block.rangeEnd), sourceStart);
    if !block.located || sourceStart == None || sourceEnd == None {
      return Open(LocatorUnverified);
    }
    if block.index !in bound || bound[block.index].status == Unresolved || bound[block.index].host == None {
      return Open(BindingNotConfirmed);
    }
    var b := bound[block.index];
    assert BindingOf(bindings, block.index) == Some(b);
    var host := SourceAt(snapshot, b.host.value);
    var start, canonicalStart := AsStart(b.start), AsStart(b.canonicalStart);
    var end, canonicalEnd := AsEnd(b.end, start), AsEnd(b.canonicalEnd, canonicalStart);
    if host == None || host.value.isInTable || start == None || end == None || canonicalStart == None
       || canonicalEnd == None {
      return Open(BindingNotConfirmed);
    }
    var fragment := HostText.RawSlice(host.value.text, start.value, end.value);
    var tape := HostText.CreateTape(nfkc, host.value.text);
    var canonical := HostText.RawSlice(tape.canonical, canonicalStart.value, canonicalEnd.value);
    if (b.status == Confirmed && !HashIs(fragment, block.rawHash))
       || (b.status == Review && !HashIs(canonical, block.canonicalHash)) {
      return Open(BindingNotConfirmed);
    }
    if fragment == None {
      return Breaks;
    }
    return Found(host.value, start.value, end.value, fragment.value, canonicalStart.value, canonicalEnd.value,
                 sourceStart.value, sourceEnd.value, b.status);
  }

  /** A block that makes the mapping throw is the end of it. */
  lemma {:induction false} BreaksForGood(nfkc: HostText.Normalizer, snapshot: seq<Source>, plan: WheelPlan, n: nat)
    requires plan.binding.Some? && n <= |plan.blocks|
    ensures MappedUpTo(nfkc, snapshot, plan, n) == None ==> MappedUpTo(nfkc, snapshot, plan, |plan.blocks|) == None
    decreases |plan.blocks| - n
  {
    if n < |plan.blocks| {
      BreaksForGood(nfkc, snapshot, plan, n + 1);
    }
  }

  lemma NothingComplete(bindings: seq<Binding>)
    ensures !GroupComplete(bindings, [])
  {
  }

  lemma NoOccurrences()
    ensures forall h :: Occurrences([], h) == 0
  {
  }

  lemma {:induction false} OccurrencesMore(targets: seq<Target>, t: Target)
    ensures forall h :: Occurrences(targets + [t], h) ==
                        Occurrences(targets, h) + if t.fragmentHash == h then 1 else 0
  {
    assert (targets + [t])[..|targets|] == targets;
  }

  lemma TargetCarries(block: Block, v: Verdict, complete: bool, occurrence: nat)
    requires v.Found?
    ensures TargetOf(block, v, complete, occurrence).fragmentHash == Sha256(v.fragment)
    ensures TargetOf(block, v, complete, occurrence).occurrence == occurrence
  {
  }

  /** The mapping: every block in the flow becomes a target or is named with the reason why not. */
  method MapPlan(nfkc: HostText.Normalizer, snapshot: seq<Source>, plan: WheelPlan)
    returns (r: Result<Recognition, MapError>)
    ensures r == Mapped(nfkc, snapshot, plan)
  {
    hide Judge, TargetOf, GroupComplete, Group, BindingOf, Occurrences;
    if plan.contract != CONTRACT || plan.binding == None || plan.binding.value.0 != CONTRACT {
      return Failure(ContractMismatch);
    }
    var bindings := plan.binding.value.1;
    var bound := BindBlocks(bindings);
    var order, grouped := GroupBlocks(plan.blocks);
    var completed := CompleteGroups(bindings, bound, order, grouped);
    var occurrences: map<Digest, nat> := map[];
    var recognition := Recognition([], []);
    NoOccurrences();
    for i := 0 to |plan.blocks|
      invariant MappedUpTo(nfkc, snapshot, plan, i) == Some(recognition)
      invariant forall h :: Occurrences(recognition.targets, h) == if h in occurrences then occurrences[h] else 0
    {
      var block := plan.blocks[i];
      var v := JudgeBlock(nfkc, snapshot, bindings, bound, block);
      match v
      case Skipped =>
      case Open(reason) =>
        recognition := recognition.(unresolved := recognition.unresolved + [(block.index, reason)]);
      case Breaks =>
        BreaksForGood(nfkc, snapshot, plan, i + 1);
        return Failure(FragmentMissing);
      case Found(_, _, _, fragment, _, _, _, _, _) =>
        var hash, physical := Sha256(fragment), PhysicalNumber(block);
        var complete := physical.Some? && physical.value in completed && completed[physical.value];
        var occurrence := if hash in occurrences then occurrences[hash] else 0;
        occurrences := occurrences[hash := occurrence + 1];
        var target := TargetOf(block, v, complete, occurrence);
        OccurrencesMore(recognition.targets, target);
        NothingComplete(bindings);
        TargetCarries(block, v, complete, occurrence);
        recognition := recognition.(targets := recognition.targets + [target]);
    }
    return Success(recognition);
  }

  // ---------------------------------------------------------------- when the mapping fails

  /** Only a block whose binding is to be reviewed can make the mapping throw: its canonical range cuts out what was
      recognized, and its raw range, which is not looked at then, cuts out nothing. */
  lemma {:induction false} BreaksOnlyInReview(nfkc: HostText.Normalizer, snapshot: seq<Source>, bindings: seq<Binding>,
                                              block: Block)
    requires Judge(nfkc, snapshot, bindings, block) == Breaks
    ensures var b := BindingOf(bindings, block.index);
            && b.Some? && b.value.status == Review && b.value.host.Some? && b.value.start.Whole? && b.value.end.Whole?
            && var host := SourceAt(snapshot, b.value.host.value);
               && host.Some? && HostText.RawSlice(host.value.text, b.value.start.value, b.value.end.value) == None
               && b.value.canonicalStart.Whole? && b.value.canonicalEnd.Whole?
               && HashIs(HostText.RawSlice(HostText.Canon(nfkc, host.value.text, |host.value.text|),
                                           b.value.canonicalStart.value, b.value.canonicalEnd.value),
                         block.canonicalHash)
  {
  }

  lemma {:induction false} ThrowsUpTo(nfkc: HostText.Normalizer, snapshot: seq<Source>, plan: WheelPlan, n: nat)
    requires plan.binding.Some? && n <= |plan.blocks|
    ensures MappedUpTo(nfkc, snapshot, plan, n) == None <==>
            exists i :: 0 <= i < n && Judge(nfkc, snapshot, plan.binding.value.1, plan.blocks[i]) == Breaks
  {
    hide Judge, TargetOf, Complete;
    if n > 0 {
      ThrowsUpTo(nfkc, snapshot, plan, n - 1);
    }
  }

  /** One such block makes the whole recognition fail, and nothing else does once the contracts agree. */
  lemma FailsExactly(nfkc: HostText.Normalizer, snapshot: seq<Source>, plan: WheelPlan)
    ensures Mapped(nfkc, snapshot, plan) == Failure(ContractMismatch) <==> !SameContract(plan)
    ensures Mapped(nfkc, snapshot, plan) == Failure(FragmentMissing) <==>
            && SameContract(plan)
            && exists i :: 0 <= i < |plan.blocks|
                 && Judge(nfkc, snapshot, plan.binding.value.1, plan.blocks[i]) == Breaks
  {
    hide Judge, MappedUpTo;
    if SameContract(plan) {
      ThrowsUpTo(nfkc, snapshot, plan, |plan.blocks|);
    }
  }

  // ---------------------------------------------------------------- what the targets are

  /** Block i is where this target comes from. */
  ghost predicate Made(nfkc: HostText.Normalizer, snapshot: seq<Source>, plan: WheelPlan, i: nat, t: Target)
    requires plan.binding.Some? && i < |plan.blocks|
  {
    var v := Judge(nfkc, snapshot, plan.binding.value.1, plan.blocks[i]);
    v.Found? && t == TargetOf(plan.blocks[i], v, Complete(plan, plan.blocks[i]), t.occurrence)
  }

  lemma {:induction false} TargetsFrom(nfkc: HostText.Normalizer, snapshot: seq<Source>, plan: WheelPlan, n: nat)
    requires plan.binding.Some? && n <= |plan.blocks| && MappedUpTo(nfkc, snapshot, plan, n).Some?
    ensures forall t :: t in MappedUpTo(nfkc, snapshot, plan, n).value.targets ==>
              exists i :: 0 <= i < n && Made(nfkc, snapshot, plan, i, t)
  {
    hide Judge, TargetOf, Complete;
    if n > 0 {
      TargetsFrom(nfkc, snapshot, plan, n - 1);
      var block := plan.blocks[n - 1];
      var v := Judge(nfkc, snapshot, plan.binding.value.1, block);
      if v.Found? {
        var before := MappedUpTo(nfkc, snapshot, plan, n - 1).value.targets;
        var occurrence := Occurrences(before, Sha256(v.fragment));
        TargetCarries(block, v, Complete(plan, block), occurrence);
        assert Made(nfkc, snapshot, plan, n - 1, TargetOf(block, v, Complete(plan, block), occurrence));
      }
    }
  }

  function InFlow(blocks: seq<Block>): nat {
    if blocks == [] then 0 else InFlow(blocks[..|blocks| - 1]) + if blocks[|blocks| - 1].inFlow then 1 else 0
  }

  lemma {:induction false} AnsweredUpTo(nfkc: HostText.Normalizer, snapshot: seq<Source>, plan: WheelPlan, n: nat)
    requires plan.binding.Some? && n <= |plan.blocks| && MappedUpTo(nfkc, snapshot, plan, n).Some?
    ensures var r := MappedUpTo(nfkc, snapshot, plan, n).value;
            |r.targets| + |r.unresolved| == InFlow(plan.blocks[..n])
  {
    hide TargetOf, Complete;
    if n > 0 {
      AnsweredUpTo(nfkc, snapshot, plan, n - 1);
      assert plan.blocks[..n][..n - 1] == plan.blocks[..n - 1];
    }
  }

  /** No block in the flow is lost: each is a target, or listed with a reason. */
  lemma EveryBlockAnswered(nfkc: HostText.Normalizer, snapshot: seq<Source>, plan: WheelPlan)
    requires Mapped(nfkc, snapshot, plan).Success?
    ensures var r := Mapped(nfkc, snapshot, plan).value;
            |r.targets| + |r.unresolved| == InFlow(plan.blocks)
  {
    hide MappedUpTo;
    AnsweredUpTo(nfkc, snapshot, plan, |plan.blocks|);
    assert plan.blocks[..|plan.blocks|] == plan.blocks;
  }

  /** The range of a target cuts its fragment out of a paragraph of the snapshot outside tables. */
  ghost predicate TargetFits(snapshot: seq<Source>, t: Target) {
    var host := SourceAt(snapshot, t.host);
    && host.Some? && !host.value.isInTable && t.hash == Sha256(host.value.text)
    && HostText.RawSlice(host.value.text, t.start, t.end).Some?
    && t.fragmentHash == Sha256(HostText.RawSlice(host.value.text, t.start, t.end).value)
    && t.length == t.end - t.start
  }

  lemma {:induction false} SourceHasIndex(snapshot: seq<Source>, host: int)
    ensures var s := SourceAt(snapshot, host); s.Some? ==> s.value.index == host
  {
    if snapshot != [] {
      SourceHasIndex(snapshot[..|snapshot| - 1], host);
    }
  }

  lemma MadeFits(nfkc: HostText.Normalizer, snapshot: seq<Source>, plan: WheelPlan, i: nat, t: Target)
    requires plan.binding.Some? && i < |plan.blocks| && Made(nfkc, snapshot, plan, i, t)
    ensures TargetFits(snapshot, t)
  {
    hide Complete;
    var binding := BindingOf(plan.binding.value.1, plan.blocks[i].index);
    SourceHasIndex(snapshot, binding.value.host.value);
  }

  /** A target is applied only when it is a whole paragraph with the text that was recognized, and when every block of
      its physical paragraph is there and confirmed. */
  lemma AppliedIsWhole(nfkc: HostText.Normalizer, snapshot: seq<Source>, plan: WheelPlan, t: Target)
    requires Mapped(nfkc, snapshot, plan).Success? && t in Mapped(nfkc, snapshot, plan).value.targets && t.apply
    ensures t.status == Confirmed && t.total == 1 && t.start == 0 && t.fragmentHash == t.hash
    ensures exists i :: 0 <= i < |plan.blocks| && plan.blocks[i].index == t.block
              && plan.blocks[i].rawHash == Some(t.hash) && Complete(plan, plan.blocks[i])
  {
    hide MappedUpTo, Complete;
    TargetsFrom(nfkc, snapshot, plan, |plan.blocks|);
    var i :| 0 <= i < |plan.blocks| && Made(nfkc, snapshot, plan, i, t);
    MadeFits(nfkc, snapshot, plan, i, t);
    var v := Judge(nfkc, snapshot, plan.binding.value.1, plan.blocks[i]);
    assert v.fragment == v.host.text;
  }

  lemma {:induction false} OccurrencesUpTo(nfkc: HostText.Normalizer, snapshot: seq<Source>, plan: WheelPlan, n: nat,
                                           k: nat)
    requires plan.binding.Some? && n <= |plan.blocks| && MappedUpTo(nfkc, snapshot, plan, n).Some?
    requires k < |MappedUpTo(nfkc, snapshot, plan, n).value.targets|
    ensures var targets := MappedUpTo(nfkc, snapshot, plan, n).value.targets;
            targets[k].occurrence == Occurrences(targets[..k], targets[k].fragmentHash)
  {
    hide Judge, TargetOf, Complete, Occurrences;
    var before := MappedUpTo(nfkc, snapshot, plan, n - 1).value.targets;
    var v := Judge(nfkc, snapshot, plan.binding.value.1, plan.blocks[n - 1]);
    if k < |before| {
      OccurrencesUpTo(nfkc, snapshot, plan, n - 1, k);
      assert MappedUpTo(nfkc, snapshot, plan, n).value.targets[..k] == before[..k];
    } else {
      TargetCarries(plan.blocks[n - 1], v, Complete(plan, plan.blocks[n - 1]), Occurrences(before, Sha256(v.fragment)));
      assert MappedUpTo(nfkc, snapshot, plan, n).value.targets[..k] == before;
    }
  }

  // ---------------------------------------------------------------- what the planner may rely on

  /** What the planner uses of a target. */
  function SegmentOf(t: Target): Segment {
    Segment(t.host, t.start, t.end, t.hash, t.kind, true, t.total, t.located)
  }

  function SegmentsOf(targets: seq<Target>): (r: seq<Segment>)
    ensures |r| == |targets|
  {
    seq(|targets|, i requires 0 <= i < |targets| => SegmentOf(targets[i]))
  }

  /** Every target of a document's snapshot is a verified segment of that document. */
  lemma RecognitionFits(nfkc: HostText.Normalizer, doc: Document, plan: WheelPlan)
    requires Mapped(nfkc, SnapshotOf(doc), plan).Success?
    ensures SegmentsFit(doc, SegmentsOf(Mapped(nfkc, SnapshotOf(doc), plan).value.targets))
  {
    hide MappedUpTo, Made, SourceAt;
    var snapshot := SnapshotOf(doc);
    var targets := Mapped(nfkc, snapshot, plan).value.targets;
    TargetsFrom(nfkc, snapshot, plan, |plan.blocks|);
    forall k | 0 <= k < |targets| ensures SegmentFits(doc, SegmentOf(targets[k])) {
      assert targets[k] in targets;
      var i :| 0 <= i < |plan.blocks| && Made(nfkc, snapshot, plan, i, targets[k]);
      MadeFits(nfkc, snapshot, plan, i, targets[k]);
      SourceAtDocument(doc, targets[k].host);
    }
  }

  /** From recognition to the edited document: whatever the recognizer and its bindings say, a plan made from the mapped
      targets of a document is accepted by the host and carried out exactly, visible text kept. */
  lemma {:induction false} RecognizedNormalizationSucceeds(nfkc: HostText.Normalizer, doc: Document, wheel: WheelPlan)
    requires ValidDocument(doc) && Mapped(nfkc, SnapshotOf(doc), wheel).Success?
    requires var segments := SegmentsOf(Mapped(nfkc, SnapshotOf(doc), wheel).value.targets);
             && CreatedPlan(SnapshotOf(doc), segments).Success?
             && var plan := CreatedPlan(SnapshotOf(doc), segments).value;
                plan.items != [] && plan.created + plan.trimmed + plan.removed <= BATCH_LIMIT
    ensures var segments := SegmentsOf(Mapped(nfkc, SnapshotOf(doc), wheel).value.targets);
            var plan := CreatedPlan(SnapshotOf(doc), segments).value;
            && AllAccepted(doc, plan.items)
            && var after := Rewrite(doc, plan.items);
            && Batch(doc, plan.items, Sha256(SnapshotVisible(SnapshotOf(doc))), true) ==
               (Success(Report(plan.split, plan.created, plan.trimmed, plan.removed, |after|)), after)
            && Visible(after) == Visible(doc)
            && |after| == |doc| + plan.created - plan.removed
  {
    RecognitionFits(nfkc, doc, wheel);
    NormalizationSucceeds(doc, SegmentsOf(Mapped(nfkc, SnapshotOf(doc), wheel).value.targets));
  }

  /** A paragraph of one character, and a block to be reviewed whose raw range ends beyond it. */
  lemma ReviewFails()
    ensures exists nfkc, snapshot, plan :: Mapped(nfkc, snapshot, plan) == Failure(FragmentMissing)
  {
    hide MappedUpTo, HostText.Canon;
    var nfkc: HostText.Normalizer := t => t;
    var a: CodeUnit := 0x41;
    var text := [a];
    assert HostText.Canon(nfkc, text, 1) == text by {
      OneCharacter(nfkc, text);
    }
    var block := Block(true, 0, "body", Index(0), Whole(0), Missing, Whole(1), Missing, true, None, Some(Sha256(text)),
                       Some(1), Some(1), Some(1), false);
    var binding := Binding(0, Review, Some(0), Whole(0), Whole(2), Whole(0), Whole(1));
    var snapshot := [Source(0, text, false, false, false, false)];
    var plan := WheelPlan(CONTRACT, [block], Some((CONTRACT, [binding])));
    assert text[0..1] == text;
    assert Judge(nfkc, snapshot, [binding], plan.blocks[0]) == Breaks;
    FailsExactly(nfkc, snapshot, plan);
  }

  lemma {:induction false} OneCharacter(nfkc: HostText.Normalizer, text: Text)
    requires text == [0x41] && nfkc(text) == text
    ensures HostText.Canon(nfkc, text, 1) == text
  {
    assert text[0..1] == text;
    HostText.UnitStep(text, 0);
  }
}
