/** Pass attachments: the slots that the attachment writes of the surviving passes fill. */
module Attachments {
  import opened GraphModel

  const MAX_COLOR_SLOTS: nat := 4
  const DEPTH_SLOT: nat := 4

  datatype Attachment = Attachment(pass: nat, image: nat, slot: nat, isDepth: bool, ops: Ops)

  // An attachment write of a pass: the image, and whether it is its depth.
  datatype Write = Write(image: nat, isDepth: bool, ops: Ops)

  predicate Attaches(use: Use<ImageAccess>, pass: nat) {
    use.pass == pass && !use.isRead && (use.access == ColorAttachment || use.access == DepthAttachment)
  }

  // The attachment writes of a pass, by resource and then in the order of declaration.
  ghost function WritesOf(r: nat, uses: seq<Use<ImageAccess>>, pass: nat): seq<Write> {
    if uses == [] then []
    else
      var before, last := WritesOf(r, uses[..|uses| - 1], pass), uses[|uses| - 1];
      if Attaches(last, pass) then before + [Write(r, last.access == DepthAttachment, last.ops)] else before
  }

  ghost function WritesIn(resources: seq<Resource>, pass: nat): seq<Write> {
    if resources == [] then []
    else
      var n := |resources| - 1;
      WritesIn(resources[..n], pass) + if resources[n].Image? then WritesOf(n, resources[n].imageUses, pass) else []
  }

  ghost function Colors(writes: seq<Write>): (count: nat)
    ensures count <= |writes|
  {
    if writes == [] then 0 else Colors(writes[..|writes| - 1]) + if writes[|writes| - 1].isDepth then 0 else 1
  }

  // The slots they fill: depth its own, color the next of four; further color writes fill none.
  ghost function Filled(pass: nat, writes: seq<Write>): seq<Attachment> {
    if writes == [] then []
    else
      var before, w := writes[..|writes| - 1], writes[|writes| - 1];
      Filled(pass, before) +
      if w.isDepth then [Attachment(pass, w.image, DEPTH_SLOT, true, w.ops)]
      else if Colors(before) < MAX_COLOR_SLOTS then [Attachment(pass, w.image, Colors(before), false, w.ops)]
      else []
  }

  ghost function AttachmentsOf(resources: seq<Resource>, surviving: seq<bool>): seq<Attachment> {
    if surviving == [] then []
    else
      var n := |surviving| - 1;
      AttachmentsOf(resources, surviving[..n]) + if surviving[n] then Filled(n, WritesIn(resources, n)) else []
  }

  function Least(a: nat, b: nat): nat {
    if a < b then a else b
  }

  lemma WritesExtend(r: nat, uses: seq<Use<ImageAccess>>, pass: nat, u: nat)
    requires u < |uses|
    ensures WritesOf(r, uses[..u + 1], pass) == WritesOf(r, uses[..u], pass) +
      if Attaches(uses[u], pass) then [Write(r, uses[u].access == DepthAttachment, uses[u].ops)] else []
  {
    assert uses[..u + 1][..u] == uses[..u];
  }

  lemma FilledMore(pass: nat, writes: seq<Write>, w: Write)
    ensures Colors(writes + [w]) == Colors(writes) + if w.isDepth then 0 else 1
    ensures Filled(pass, writes + [w]) == Filled(pass, writes) +
      if w.isDepth then [Attachment(pass, w.image, DEPTH_SLOT, true, w.ops)]
      else if Colors(writes) < MAX_COLOR_SLOTS then [Attachment(pass, w.image, Colors(writes), false, w.ops)]
      else []
  {
    assert (writes + [w])[..|writes|] == writes;
  }

  method AttachPass(resources: seq<Resource>, pass: nat) returns (attachments: seq<Attachment>)
    ensures attachments == Filled(pass, WritesIn(resources, pass))
  {
    hide WritesOf, Filled, Colors;
    attachments := [];
    var colorSlot := 0;
    NothingFilled(pass);
    for r := 0 to |resources|
      invariant attachments == Filled(pass, WritesIn(resources[..r], pass))
      invariant colorSlot == Least(Colors(WritesIn(resources[..r], pass)), MAX_COLOR_SLOTS)
    {
      NextWrites(resources, r, pass);
      if resources[r].Image? {
        attachments, colorSlot := AttachUses(resources, r, pass, attachments, colorSlot);
      }
    }
    assert resources[..|resources|] == resources;
  }

  lemma NextWrites(resources: seq<Resource>, r: nat, pass: nat)
    requires r < |resources|
    ensures WritesIn(resources[..r + 1], pass) == WritesIn(resources[..r], pass) +
      if resources[r].Image? then WritesOf(r, resources[r].imageUses, pass) else []
    ensures resources[r].Buffer? ==> WritesIn(resources[..r + 1], pass) == WritesIn(resources[..r], pass)
  {
    assert resources[..r + 1][..r] == resources[..r];
  }

  lemma NothingFilled(pass: nat)
    ensures Filled(pass, []) == [] && Colors([]) == 0
  {
  }

  // The uses of one image, after those of the resources before it.
  method AttachUses(resources: seq<Resource>, r: nat, pass: nat, filled: seq<Attachment>, colors: nat)
    returns (attachments: seq<Attachment>, colorSlot: nat)
    requires r < |resources| && resources[r].Image?
    requires filled == Filled(pass, WritesIn(resources[..r], pass))
    requires colors == Least(Colors(WritesIn(resources[..r], pass)), MAX_COLOR_SLOTS)
    ensures attachments == Filled(pass, WritesIn(resources[..r + 1], pass))
    ensures colorSlot == Least(Colors(WritesIn(resources[..r + 1], pass)), MAX_COLOR_SLOTS)
  {
    hide WritesOf, WritesIn, Filled, Colors;
    NextWrites(resources, r, pass);
    attachments, colorSlot := filled, colors;
    var uses := resources[r].imageUses;
    ghost var before := WritesIn(resources[..r], pass);
    ghost var writes := before;
    NoWrites(r, uses, pass);
    assert before + [] == before;
    for u := 0 to |uses|
      invariant writes == before + WritesOf(r, uses[..u], pass)
      invariant attachments == Filled(pass, writes) && colorSlot == Least(Colors(writes), MAX_COLOR_SLOTS)
    {
      var use := uses[u];
      WritesExtend(r, uses, pass, u);
      if use.pass != pass || use.isRead {
        continue;
      }
      ghost var w := Write(r, use.access == DepthAttachment, use.ops);
      FilledMore(pass, writes, w);
      if Attaches(use, pass) {
        writes := writes + [w];
      }
      if use.access == DepthAttachment {
        attachments := attachments + [Attachment(pass, r, DEPTH_SLOT, true, use.ops)];
      } else if use.access == ColorAttachment && colorSlot < MAX_COLOR_SLOTS {
        attachments := attachments + [Attachment(pass, r, colorSlot, false, use.ops)];
        colorSlot := colorSlot + 1;
      }
    }
    assert uses[..|uses|] == uses;
  }

  lemma NoWrites(r: nat, uses: seq<Use<ImageAccess>>, pass: nat)
    ensures WritesOf(r, uses[..0], pass) == []
  {
  }

  method FindAttachments(resources: seq<Resource>, surviving: seq<bool>) returns (attachments: seq<Attachment>)
    ensures attachments == AttachmentsOf(resources, surviving)
  {
    attachments := [];
    for pass := 0 to |surviving|
      invariant attachments == AttachmentsOf(resources, surviving[..pass])
    {
      assert surviving[..pass + 1][..pass] == surviving[..pass];
      if !surviving[pass] {
        continue;
      }
      var filled := AttachPass(resources, pass);
      attachments := attachments + filled;
    }
    assert surviving[..|surviving|] == surviving;
  }

  // ------------------------------------------------------------------
  // The slots of one pass
  // ------------------------------------------------------------------

  ghost predicate DistinctSlots(attachments: seq<Attachment>) {
    forall i, j :: 0 <= i < j < |attachments| ==> attachments[i].slot != attachments[j].slot
  }

  // The slots filled so far: colors from zero on, and depth if there was any.
  lemma {:induction false} FilledSlots(pass: nat, writes: seq<Write>)
    ensures forall i :: 0 <= i < |Filled(pass, writes)| ==>
      var a := Filled(pass, writes)[i];
      a.pass == pass && if a.isDepth then a.slot == DEPTH_SLOT else a.slot < Least(Colors(writes), MAX_COLOR_SLOTS)
    ensures Colors(writes) < |writes| <==> exists i :: 0 <= i < |Filled(pass, writes)| && Filled(pass, writes)[i].isDepth
  {
    if writes != [] {
      var before, w := writes[..|writes| - 1], writes[|writes| - 1];
      FilledSlots(pass, before);
      assert writes == before + [w];
      FilledMore(pass, before, w);
      var filled := Filled(pass, writes);
      assert w.isDepth ==> filled[|filled| - 1].isDepth;
      assert forall i :: 0 <= i < |Filled(pass, before)| ==> filled[i] == Filled(pass, before)[i];
    }
  }

  /** No two attachments of a pass share a slot exactly when it writes depth at most once, and every write
      gets a slot exactly when there are at most four colors. */
  lemma {:induction false} SlotsAreDistinctWhen(pass: nat, writes: seq<Write>)
    ensures DistinctSlots(Filled(pass, writes)) <==> |writes| - Colors(writes) <= 1
    ensures |Filled(pass, writes)| == |writes| - Colors(writes) + Least(Colors(writes), MAX_COLOR_SLOTS)
  {
    if writes != [] {
      var before, w := writes[..|writes| - 1], writes[|writes| - 1];
      SlotsAreDistinctWhen(pass, before);
      FilledSlots(pass, before);
      assert writes == before + [w];
      FilledMore(pass, before, w);
      OneMoreSlot(Filled(pass, before), Filled(pass, writes));
    }
  }

  lemma OneMoreSlot(before: seq<Attachment>, after: seq<Attachment>)
    requires before == after || (|after| == |before| + 1 && before == after[..|before|])
    ensures DistinctSlots(after) <==>
      DistinctSlots(before) && (|after| > |before| ==> forall i :: 0 <= i < |before| ==> before[i].slot != after[|before|].slot)
  {
    if |after| > |before| && DistinctSlots(after) {
      forall i, j | 0 <= i < j < |before|
        ensures before[i].slot != before[j].slot
      {
        assert after[i].slot != after[j].slot;
      }
    }
  }
}
