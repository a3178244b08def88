/** What the attachments are, told by the declared uses alone. */
module AttachmentContents {
  import opened GraphModel
  import opened Attachments

  // The u-th use of resource `r` is a color write by `pass`, or a depth write.
  ghost predicate IsColorWrite(resources: seq<Resource>, pass: nat, r: int, u: int) {
    && 0 <= r < |resources| && resources[r].Image? && 0 <= u < |resources[r].imageUses|
    && resources[r].imageUses[u].pass == pass && !resources[r].imageUses[u].isRead
    && resources[r].imageUses[u].access == ColorAttachment
  }

  ghost predicate IsDepthWrite(resources: seq<Resource>, pass: nat, r: int, u: int) {
    && 0 <= r < |resources| && resources[r].Image? && 0 <= u < |resources[r].imageUses|
    && resources[r].imageUses[u].pass == pass && !resources[r].imageUses[u].isRead
    && resources[r].imageUses[u].access == DepthAttachment
  }

  // The color writes of the pass that come before: in an earlier resource, or earlier in the same one.
  ghost function ColorWritesBefore(resources: seq<Resource>, pass: nat, r: int, u: int): set<(nat, nat)> {
    set s: nat, v: nat | s < |resources| && resources[s].Image? && v < |resources[s].imageUses| &&
      IsColorWrite(resources, pass, s, v) && (s < r || (s == r && v < u)) :: (s, v)
  }

  // The attachment that a use brings: depth in slot 4, colors in slots 0 to 3 by the color writes before them.
  ghost predicate AttachmentFor(resources: seq<Resource>, surviving: seq<bool>, r: int, u: int, a: Attachment) {
    && a.pass < |surviving| && surviving[a.pass] && a.image == r
    && if a.isDepth then IsDepthWrite(resources, a.pass, r, u) && a.slot == 4 && a.ops == resources[r].imageUses[u].ops
       else
         && IsColorWrite(resources, a.pass, r, u) && a.slot < 4 && a.ops == resources[r].imageUses[u].ops
         && a.slot == |ColorWritesBefore(resources, a.pass, r, u)|
  }

  // ------------------------------------------------------------------
  // Counting colors
  // ------------------------------------------------------------------

  // The writes up to the u-th use of resource `r`.
  ghost function WritesTo(resources: seq<Resource>, pass: nat, r: nat, u: nat): seq<Write>
    requires r < |resources| && resources[r].Image? && u <= |resources[r].imageUses|
  {
    WritesIn(resources[..r], pass) + WritesOf(r, resources[r].imageUses[..u], pass)
  }

  // Membership in the set, said without the set.
  lemma ColorsBeforeHold(resources: seq<Resource>, pass: nat, r: int, u: int, s: nat, v: nat)
    ensures (s, v) in ColorWritesBefore(resources, pass, r, u) <==>
      IsColorWrite(resources, pass, s, v) && (s < r || (s == r && v < u))
  {
  }

  lemma NextColors(resources: seq<Resource>, pass: nat, r: nat, u: nat)
    requires r < |resources| && resources[r].Image? && u < |resources[r].imageUses|
    ensures |ColorWritesBefore(resources, pass, r, u + 1)| ==
      |ColorWritesBefore(resources, pass, r, u)| + if IsColorWrite(resources, pass, r, u) then 1 else 0
  {
    hide ColorWritesBefore, IsColorWrite;
    var before, after := ColorWritesBefore(resources, pass, r, u), ColorWritesBefore(resources, pass, r, u + 1);
    var here := if IsColorWrite(resources, pass, r, u) then {(r, u)} else {};
    forall s: nat, v: nat
      ensures (s, v) in after <==> (s, v) in before + here
    {
      ColorsBeforeHold(resources, pass, r, u, s, v);
      ColorsBeforeHold(resources, pass, r, u + 1, s, v);
    }
    ColorsBeforeHold(resources, pass, r, u, r, u);
    SamePairs(after, before + here);
  }

  lemma SamePairs(a: set<(nat, nat)>, b: set<(nat, nat)>)
    requires forall s: nat, v: nat :: (s, v) in a <==> (s, v) in b
    ensures a == b
  {
    forall p: (nat, nat)
      ensures p in a <==> p in b
    {
      assert p == (p.0, p.1);
    }
  }

  lemma NextResourceColors(resources: seq<Resource>, pass: nat, r: nat)
    requires r < |resources|
    ensures ColorWritesBefore(resources, pass, r + 1, 0) ==
      ColorWritesBefore(resources, pass, r, if resources[r].Image? then |resources[r].imageUses| else 0)
  {
  }

  lemma {:induction false} ColorsAreCounted(resources: seq<Resource>, pass: nat, r: nat, u: nat)
    requires r < |resources| && resources[r].Image? && u <= |resources[r].imageUses|
    requires Colors(WritesIn(resources[..r], pass)) == |ColorWritesBefore(resources, pass, r, 0)|
    ensures Colors(WritesTo(resources, pass, r, u)) == |ColorWritesBefore(resources, pass, r, u)|
    decreases u
  {
    hide Colors, WritesOf, WritesIn, ColorWritesBefore;
    var uses, first := resources[r].imageUses, WritesIn(resources[..r], pass);
    if u == 0 {
      NoWrites(r, uses, pass);
      assert first + [] == first;
    } else {
      ColorsAreCounted(resources, pass, r, u - 1);
      NextColors(resources, pass, r, u - 1);
      WritesExtend(r, uses, pass, u - 1);
      var before := WritesTo(resources, pass, r, u - 1);
      var w := Write(r, uses[u - 1].access == DepthAttachment, uses[u - 1].ops);
      FilledMore(pass, before, w);
      assert first + (WritesOf(r, uses[..u - 1], pass) + [w]) == before + [w];
      assert first + (WritesOf(r, uses[..u - 1], pass) + []) == before;
    }
  }

  lemma {:induction false} ColorsOfResources(resources: seq<Resource>, pass: nat, r: nat)
    requires r <= |resources|
    ensures Colors(WritesIn(resources[..r], pass)) == |ColorWritesBefore(resources, pass, r, 0)|
    decreases r
  {
    hide Colors, WritesOf, WritesIn, ColorWritesBefore;
    if r == 0 {
      NoColors(resources, pass);
    } else {
      ColorsOfResources(resources, pass, r - 1);
      NextWrites(resources, r - 1, pass);
      NextResourceColors(resources, pass, r - 1);
      if resources[r - 1].Image? {
        var uses := resources[r - 1].imageUses;
        ColorsAreCounted(resources, pass, r - 1, |uses|);
        assert uses[..|uses|] == uses;
      }
    }
  }

  lemma NoColors(resources: seq<Resource>, pass: nat)
    ensures Colors(WritesIn(resources[..0], pass)) == |ColorWritesBefore(resources, pass, 0, 0)|
  {
    assert ColorWritesBefore(resources, pass, 0, 0) == {};
  }

  // ------------------------------------------------------------------
  // One pass
  // ------------------------------------------------------------------

  // What the writes up to a use fill is what the uses up to it bring.
  ghost predicate FilledAre(resources: seq<Resource>, pass: nat, r: int, u: int, filled: seq<Attachment>) {
    forall a :: a in filled <==> exists s, v :: BringsBefore(resources, pass, r, u, s, v, a)
  }

  ghost predicate BringsBefore(resources: seq<Resource>, pass: nat, r: int, u: int, s: int, v: int, a: Attachment) {
    && (s < r || (s == r && v < u)) && Brings(resources, pass, s, v, a)
  }

  ghost predicate Brings(resources: seq<Resource>, pass: nat, r: int, u: int, a: Attachment) {
    && a.pass == pass && a.image == r
    && if a.isDepth then IsDepthWrite(resources, pass, r, u) && a.slot == 4 && a.ops == resources[r].imageUses[u].ops
       else
         && IsColorWrite(resources, pass, r, u) && a.slot < 4 && a.ops == resources[r].imageUses[u].ops
         && a.slot == |ColorWritesBefore(resources, pass, r, u)|
  }

  lemma NextFilled(resources: seq<Resource>, pass: nat, r: nat, u: nat)
    requires r < |resources| && resources[r].Image? && u < |resources[r].imageUses|
    requires FilledAre(resources, pass, r, u, Filled(pass, WritesTo(resources, pass, r, u)))
    requires Colors(WritesTo(resources, pass, r, u)) == |ColorWritesBefore(resources, pass, r, u)|
    ensures FilledAre(resources, pass, r, u + 1, Filled(pass, WritesTo(resources, pass, r, u + 1)))
  {
    hide Colors, WritesOf, WritesIn, ColorWritesBefore, Filled;
    var uses, before := resources[r].imageUses, WritesTo(resources, pass, r, u);
    var w := Write(r, uses[u].access == DepthAttachment, uses[u].ops);
    WritesExtend(r, uses, pass, u);
    FilledMore(pass, before, w);
    assert WritesIn(resources[..r], pass) + (WritesOf(r, uses[..u], pass) + [w]) == before + [w];
    assert WritesIn(resources[..r], pass) + (WritesOf(r, uses[..u], pass) + []) == before;
    FilledGrows(resources, pass, r, u, Filled(pass, before), Filled(pass, WritesTo(resources, pass, r, u + 1)));
  }

  lemma FilledGrows(resources: seq<Resource>, pass: nat, r: nat, u: nat, before: seq<Attachment>, after: seq<Attachment>)
    requires FilledAre(resources, pass, r, u, before)
    requires forall a :: a in after <==> a in before || Brings(resources, pass, r, u, a)
    ensures FilledAre(resources, pass, r, u + 1, after)
  {
    hide Brings;
    var next := u + 1;
    forall a
      ensures a in after <==> exists s, v :: BringsBefore(resources, pass, r, next, s, v, a)
    {
      if a in before {
        var s, v :| BringsBefore(resources, pass, r, u, s, v, a);
        assert BringsBefore(resources, pass, r, next, s, v, a);
      }
      if Brings(resources, pass, r, u, a) {
        assert BringsBefore(resources, pass, r, next, r, u, a);
      }
      if s, v :| BringsBefore(resources, pass, r, next, s, v, a) {
        assert BringsBefore(resources, pass, r, u, s, v, a) || (s == r && v == u);
      }
    }
  }

  lemma {:induction false} FilledByUses(resources: seq<Resource>, pass: nat, r: nat, u: nat)
    requires r < |resources| && resources[r].Image? && u <= |resources[r].imageUses|
    requires FilledAre(resources, pass, r, 0, Filled(pass, WritesIn(resources[..r], pass)))
    ensures FilledAre(resources, pass, r, u, Filled(pass, WritesTo(resources, pass, r, u)))
    decreases u
  {
    hide Colors, WritesOf, WritesIn, ColorWritesBefore, Filled, FilledAre;
    if u == 0 {
      NoWrites(r, resources[r].imageUses, pass);
      assert WritesIn(resources[..r], pass) + [] == WritesIn(resources[..r], pass);
    } else {
      FilledByUses(resources, pass, r, u - 1);
      ColorsOfResources(resources, pass, r);
      ColorsAreCounted(resources, pass, r, u - 1);
      NextFilled(resources, pass, r, u - 1);
    }
  }

  lemma NextResourceFilled(resources: seq<Resource>, pass: nat, r: nat, filled: seq<Attachment>)
    requires r < |resources|
    requires FilledAre(resources, pass, r, if resources[r].Image? then |resources[r].imageUses| else 0, filled)
    ensures FilledAre(resources, pass, r + 1, 0, filled)
  {
    hide ColorWritesBefore;
    var u, next := if resources[r].Image? then |resources[r].imageUses| else 0, r + 1;
    forall a
      ensures a in filled <==> exists s, v :: BringsBefore(resources, pass, next, 0, s, v, a)
    {
      if a in filled {
        var s, v :| BringsBefore(resources, pass, r, u, s, v, a);
        assert v >= 0 && BringsBefore(resources, pass, next, 0, s, v, a);
      }
      if s, v :| BringsBefore(resources, pass, next, 0, s, v, a) {
        assert BringsBefore(resources, pass, r, u, s, v, a);
      }
    }
  }

  lemma {:induction false} FilledByResources(resources: seq<Resource>, pass: nat, r: nat)
    requires r <= |resources|
    ensures FilledAre(resources, pass, r, 0, Filled(pass, WritesIn(resources[..r], pass)))
    decreases r
  {
    hide WritesOf, WritesIn, ColorWritesBefore, Filled, FilledAre;
    if r == 0 {
      NothingFilledYet(resources, pass);
    } else {
      FilledByResources(resources, pass, r - 1);
      NextWrites(resources, r - 1, pass);
      if resources[r - 1].Image? {
        var uses := resources[r - 1].imageUses;
        FilledByUses(resources, pass, r - 1, |uses|);
        assert uses[..|uses|] == uses;
        NextResourceFilled(resources, pass, r - 1, Filled(pass, WritesIn(resources[..r], pass)));
      } else {
        NextResourceFilled(resources, pass, r - 1, Filled(pass, WritesIn(resources[..r], pass)));
      }
    }
  }

  lemma NothingFilledYet(resources: seq<Resource>, pass: nat)
    ensures FilledAre(resources, pass, 0, 0, Filled(pass, WritesIn(resources[..0], pass)))
  {
    hide ColorWritesBefore;
  }

  // ------------------------------------------------------------------
  // All passes
  // ------------------------------------------------------------------

  lemma FilledByPass(resources: seq<Resource>, pass: nat, a: Attachment)
    ensures a in Filled(pass, WritesIn(resources, pass)) <==> exists r, u :: Brings(resources, pass, r, u, a)
  {
    hide Filled, WritesIn, ColorWritesBefore;
    FilledByResources(resources, pass, |resources|);
    assert resources[..|resources|] == resources;
    if r, u :| Brings(resources, pass, r, u, a) {
      assert BringsBefore(resources, pass, |resources|, 0, r, u, a);
    }
  }

  lemma {:induction false} AttachmentsByPass(resources: seq<Resource>, surviving: seq<bool>, a: Attachment)
    ensures a in AttachmentsOf(resources, surviving) <==>
      a.pass < |surviving| && surviving[a.pass] && exists r, u :: Brings(resources, a.pass, r, u, a)
  {
    hide Filled, WritesIn, Brings;
    if surviving != [] {
      var n := |surviving| - 1;
      AttachmentsByPass(resources, surviving[..n], a);
      FilledByPass(resources, n, a);
      if a in Filled(n, WritesIn(resources, n)) {
        FilledHavePass(resources, n, a);
      }
    }
  }

  lemma FilledHavePass(resources: seq<Resource>, pass: nat, a: Attachment)
    requires exists r, u :: Brings(resources, pass, r, u, a)
    ensures a.pass == pass
  {
    hide ColorWritesBefore;
  }

  /** The attachments, exactly: every depth write of a surviving pass, in slot 4, and every color write of one
      with fewer than four color writes of that pass before it, in the slot of that number. */
  lemma AttachmentsAre(resources: seq<Resource>, surviving: seq<bool>, a: Attachment)
    ensures a in AttachmentsOf(resources, surviving) <==> exists r, u :: AttachmentFor(resources, surviving, r, u, a)
  {
    hide AttachmentsOf, ColorWritesBefore;
    AttachmentsByPass(resources, surviving, a);
    if r, u :| Brings(resources, a.pass, r, u, a) {
      assert a.pass < |surviving| && surviving[a.pass] ==> AttachmentFor(resources, surviving, r, u, a);
    }
    if r, u :| AttachmentFor(resources, surviving, r, u, a) {
      assert Brings(resources, a.pass, r, u, a);
    }
  }

  /** They are listed by pass id. */
  lemma {:induction false} AttachmentsByPassId(resources: seq<Resource>, surviving: seq<bool>)
    ensures forall i, j :: 0 <= i < j < |AttachmentsOf(resources, surviving)| ==>
      AttachmentsOf(resources, surviving)[i].pass <= AttachmentsOf(resources, surviving)[j].pass
    ensures forall i :: 0 <= i < |AttachmentsOf(resources, surviving)| ==> AttachmentsOf(resources, surviving)[i].pass < |surviving|
  {
    hide Filled, WritesIn;
    if surviving != [] {
      var n := |surviving| - 1;
      AttachmentsByPassId(resources, surviving[..n]);
      FilledSlots(n, WritesIn(resources, n));
    }
  }
}
