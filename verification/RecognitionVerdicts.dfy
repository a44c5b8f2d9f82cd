/** Exactly which blocks become targets and what the targets say, from the recognizer's plan and the snapshot. */
module RecognitionVerdicts {
  import opened Results
  import opened Utf16
  import HostText
  import opened StructurePlan
  import opened RecognitionMapping

  /** A range given by two whole numbers, or in their absence by two others. */
  ghost predicate Reads(value: Number, other: Number, n: nat) {
    value == Whole(n) || (value == Missing && other == Whole(n))
  }

  /** The last binding for a block is the one that counts. */
  ghost predicate LastBinding(bindings: seq<Binding>, index: int, b: Binding) {
    exists i :: 0 <= i < |bindings| && bindings[i] == b && b.block == index
                && forall j :: i < j < |bindings| ==> bindings[j].block != index
  }

  lemma {:induction false} BindingExactly(bindings: seq<Binding>, index: int, b: Binding)
    ensures BindingOf(bindings, index) == Some(b) <==> LastBinding(bindings, index, b)
    ensures BindingOf(bindings, index) == None <==> forall i :: 0 <= i < |bindings| ==> bindings[i].block != index
  {
    if bindings != [] {
      var front, last := bindings[..|bindings| - 1], bindings[|bindings| - 1];
      BindingExactly(front, index, b);
      if last.block == index {
        if LastBinding(bindings, index, b) {
          var i :| 0 <= i < |bindings| && bindings[i] == b && b.block == index
            && forall j :: i < j < |bindings| ==> bindings[j].block != index;
          assert i == |bindings| - 1;
        }
      } else {
        if LastBinding(front, index, b) {
          var i :| 0 <= i < |front| && front[i] == b && b.block == index
            && forall j :: i < j < |front| ==> front[j].block != index;
          assert bindings[i] == b;
        }
        if LastBinding(bindings, index, b) {
          var i :| 0 <= i < |bindings| && bindings[i] == b && b.block == index
            && forall j :: i < j < |bindings| ==> bindings[j].block != index;
          assert front[i] == b;
        }
      }
    }
  }

  /** The block says where it stands in the source, and that is verified. */
  ghost predicate SourceVerified(block: Block, from: nat, to: nat) {
    && block.located && from < to
    && Reads(block.rawStart, block.rangeStart, from) && Reads(block.rawEnd, block.rangeEnd, to)
  }

  /** The binding names a range of a paragraph outside tables, in the host's offsets and in canonical ones. */
  ghost predicate Bound(b: Binding, snapshot: seq<Source>, host: Source, s: nat, e: nat, cs: nat, ce: nat) {
    && b.status != Unresolved && b.host.Some? && SourceAt(snapshot, b.host.value) == Some(host) && !host.isInTable
    && b.start == Whole(s) && b.end == Whole(e) && s < e
    && b.canonicalStart == Whole(cs) && b.canonicalEnd == Whole(ce) && cs < ce
  }

  /** The text that counts for this binding is the recognized one: the raw fragment when it is confirmed, the canonical
      one when it is to be reviewed. */
  ghost predicate Recognized(nfkc: HostText.Normalizer, b: Binding, block: Block, host: Source, s: nat, e: nat, cs: nat,
                             ce: nat)
  {
    var canonical := HostText.Canon(nfkc, host.text, |host.text|);
    && (b.status == Confirmed ==>
          HostText.RawSlice(host.text, s, e).Some?
          && block.rawHash == Some(Sha256(HostText.RawSlice(host.text, s, e).value)))
    && (b.status == Review ==>
          HostText.RawSlice(canonical, cs, ce).Some?
          && block.canonicalHash == Some(Sha256(HostText.RawSlice(canonical, cs, ce).value)))
  }

  /** A block is found if and only if it is in the flow, its source is verified, its last binding names a range, the
      text there is the recognized one, and the raw range can be cut out. */
  lemma FoundExactly(nfkc: HostText.Normalizer, snapshot: seq<Source>, bindings: seq<Binding>, block: Block,
                     b: Binding, host: Source, s: nat, e: nat, fragment: Text, cs: nat, ce: nat, from: nat, to: nat)
    requires LastBinding(bindings, block.index, b)
    ensures Judge(nfkc, snapshot, bindings, block) == Found(host, s, e, fragment, cs, ce, from, to, b.status) <==>
            && block.inFlow && SourceVerified(block, from, to) && Bound(b, snapshot, host, s, e, cs, ce)
            && Recognized(nfkc, b, block, host, s, e, cs, ce)
            && HostText.RawSlice(host.text, s, e) == Some(fragment)
  {
    hide HostText.Canon, HostText.RawSlice;
    BindingExactly(bindings, block.index, b);
  }

  /** Why a block in the flow stays open: its source is not verified, or else its binding is not confirmed. */
  lemma OpenExactly(nfkc: HostText.Normalizer, snapshot: seq<Source>, bindings: seq<Binding>, block: Block)
    ensures var v := Judge(nfkc, snapshot, bindings, block);
            && (v == Skipped <==> !block.inFlow)
            && (v == Open(LocatorUnverified) <==>
                block.inFlow && forall from, to :: !SourceVerified(block, from, to))
            && (v == Open(BindingNotConfirmed) <==>
                && block.inFlow && (exists from, to :: SourceVerified(block, from, to))
                && !v.Found? && !v.Breaks?)
            && ((forall i :: 0 <= i < |bindings| ==> bindings[i].block != block.index) ==> !v.Found? && !v.Breaks?)
  {
    hide HostText.Canon, HostText.RawSlice, HashIs, SourceAt;
    if b: Binding :| BindingOf(bindings, block.index) == Some(b) {
      BindingExactly(bindings, block.index, b);
    }
    var start := AsStart(Or(block.rawStart, block.rangeStart));
    var end := AsEnd(Or(block.rawEnd, block.rangeEnd), start);
    if block.located && end.Some? {
      assert SourceVerified(block, start.value, end.value);
    }
  }

  // ---------------------------------------------------------------- complete paragraphs

  lemma {:induction false} GroupExactly(blocks: seq<Block>, n: int, b: Block)
    ensures multiset(Group(blocks, n))[b] == if b.physical == Index(n) then multiset(blocks)[b] else 0
  {
    if blocks != [] {
      var front, last := blocks[..|blocks| - 1], blocks[|blocks| - 1];
      GroupExactly(front, n, b);
      OneMore(front, last, b);
      assert blocks == front + [last];
      if last.physical == Index(n) {
        OneMore(Group(front, n), last, b);
      } else {
        assert Group(front, n) + [] == Group(front, n);
      }
    }
  }

  lemma OneMore(blocks: seq<Block>, last: Block, b: Block)
    ensures multiset(blocks + [last])[b] == multiset(blocks)[b] + if b == last then 1 else 0
  {
  }

  lemma {:induction false} ExpectedIs(group: seq<Block>)
    requires group != []
    ensures forall b :: b in group ==> OrInt(b.totalCount, 1) <= Expected(group)
    ensures exists b :: b in group && OrInt(b.totalCount, 1) == Expected(group)
  {
    if |group| > 1 {
      ExpectedIs(group[..|group| - 1]);
      assert group == group[..|group| - 1] + [group[|group| - 1]];
    }
    assert group[|group| - 1] in group;
  }

  lemma {:induction false} ConfirmedIs(bindings: seq<Binding>, group: seq<Block>)
    ensures ConfirmedOf(bindings, group) <= |group|
    ensures ConfirmedOf(bindings, group) == |group| <==> forall b :: b in group ==> IsConfirmed(bindings, b)
  {
    if group != [] {
      var front := group[..|group| - 1];
      ConfirmedIs(bindings, front);
      assert group == front + [group[|group| - 1]];
    }
  }

  /** A physical paragraph is complete if and only if it has as many blocks as one of them says and none says more, and
      every one of them is confirmed. */
  lemma CompleteExactly(bindings: seq<Binding>, group: seq<Block>)
    ensures GroupComplete(bindings, group) <==>
            && group != []
            && (forall b :: b in group ==>
                  (b.totalCount == None || b.totalCount.value <= |group|) && IsConfirmed(bindings, b))
            && (exists b :: b in group && (if b.totalCount == None then 1 else b.totalCount.value) == |group|)
  {
    hide Expected, ConfirmedOf, IsConfirmed;
    if group != [] {
      ExpectedIs(group);
      ConfirmedIs(bindings, group);
      var most :| most in group && OrInt(most.totalCount, 1) == Expected(group);
    }
  }

  // ---------------------------------------------------------------- what a target says

  /** A target is applied if and only if it is confirmed, its physical paragraph is complete, and it is the one segment
      of the whole host paragraph; it needs a review if and only if it is not applied or the recognizer asks for one. */
  lemma AppliedExactly(nfkc: HostText.Normalizer, snapshot: seq<Source>, plan: WheelPlan, i: nat, t: Target)
    requires plan.binding.Some? && i < |plan.blocks| && Made(nfkc, snapshot, plan, i, t)
    ensures SourceAt(snapshot, t.host).Some?
    ensures var block := plan.blocks[i];
            && t.total == (if block.totalCount.Some? && block.totalCount.value > 1 then block.totalCount.value else 1)
            && (t.apply <==>
                && t.status == Confirmed && Complete(plan, block) && t.total == 1
                && t.start == 0 && t.end == |SourceAt(snapshot, t.host).value.text|)
            && (t.needsReview <==> !t.apply || block.doubtful)
            && (t.mixed <==> t.total > 1 || t.start > 0 || t.end != |SourceAt(snapshot, t.host).value.text|)
            && t.located == (if block.locatedCount == None then t.total
                             else if block.locatedCount.value < 1 then 1 else block.locatedCount.value)
  {
    hide Complete, HostText.Canon, HostText.RawSlice;
    var b := BindingOf(plan.binding.value.1, plan.blocks[i].index);
    SourceHasIndex(snapshot, b.value.host.value);
  }

  /** Every target comes from a block whose locator is verified. */
  lemma TargetsAreLocated(nfkc: HostText.Normalizer, snapshot: seq<Source>, plan: WheelPlan, t: Target)
    requires Mapped(nfkc, snapshot, plan).Success? && t in Mapped(nfkc, snapshot, plan).value.targets
    ensures exists i :: 0 <= i < |plan.blocks| && plan.blocks[i].index == t.block
              && plan.blocks[i].inFlow && SourceVerified(plan.blocks[i], t.sourceStart, t.sourceEnd)
  {
    hide MappedUpTo, Complete, HostText.Canon, HostText.RawSlice, HashIs, SourceAt;
    TargetsFrom(nfkc, snapshot, plan, |plan.blocks|);
    var i :| 0 <= i < |plan.blocks| && Made(nfkc, snapshot, plan, i, t);
    assert SourceVerified(plan.blocks[i], t.sourceStart, t.sourceEnd);
  }

  /** Which types count as headings and as body text. */
  lemma KindsExactly(typeId: string)
    ensures KindOf(typeId).Heading? <==> typeId in {"heading1", "heading2", "heading3", "heading4"}
    ensures KindOf(typeId).Heading? ==>
              1 <= KindOf(typeId).level <= 4 && typeId == "heading" + ['0' + KindOf(typeId).level as char]
    ensures KindOf(typeId) == Body <==> typeId in {"body", "responsibility_line"}
  {
  }
}
