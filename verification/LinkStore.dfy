/** The store itself: link files and root markers that calls read and replace in place. */
module LinkStore {
  import opened Lists
  import opened Chains
  import opened Text
  import opened Json
  import opened LinkFiles
  import opened LinkForest
  import opened FamilyKeys

  datatype Reason = ParentLoops | ParentTooDeep | WouldLoop

  /** How one write_link call went; Died is an OSError. */
  datatype Outcome = Linked | Refused(reason: Reason) | Died

  class Store {
    var linkFiles: map<string, string>
    var rootMarks: set<Id>

    /** The links and markers the readers see. */
    ghost function View(): Forest
      reads this
    {
      Forest(LinksOf(linkFiles), rootMarks)
    }

    constructor ()
      ensures View() == EMPTY
    {
      linkFiles, rootMarks := map[], {};
    }

    function LinkParent(cid: Id): Option<Id>
      reads this
    {
      ParentIn(linkFiles, cid)
    }

    /** Follow the links from `cid`, one read at a time. */
    method Walk(cid: Id) returns (ids: seq<Id>, problem: Problem, ghost lookups: nat)
      ensures StopsAt(View().links, cid, 16, ids, problem)
      ensures lookups == |ids| <= 17
      ensures problem == Clean <==> EndsWithin(View().links, cid, 16)
      ensures problem == Loop <==> !Ends(View().links, cid) && |Reached(View().links, cid)| <= 17
      ensures problem == TooDeep <==> |Reached(View().links, cid)| >= 18
      ensures problem == Clean ==> ids[|ids| - 1] == Root(View().links, cid)
    {
      ghost var m := View().links;
      ids, lookups := [cid], 0;
      while true
        invariant 0 < |ids| <= 17 && lookups == |ids| - 1
        invariant ids == Prefix(m, cid, |ids|) && NoRepeats(ids)
        decreases 17 - |ids|
      {
        var nxt := LinkParent(ids[|ids| - 1]);
        lookups := lookups + 1;
        if nxt.None? {
          problem := Clean;
          break;
        }
        if nxt.value in ids {
          problem := Loop;
          break;
        }
        if |ids| > MAX_LINK_DEPTH {
          problem := TooDeep;
          break;
        }
        PrefixGrows(m, cid, ids);
        ids := ids + [nxt.value];
      }
      WalkClassifies(m, cid, 16, ids, problem);
    }

    /** os.replace of the child's link file. */
    method Replace(child: Id, parent: Id)
      requires ValidId(parent) && child != parent
      modifies this
      ensures View() == Forest(old(View()).links[child := parent], old(View()).marks)
    {
      WriteIsOneLink(linkFiles, child, parent);
      linkFiles := linkFiles[child := parent];
    }

    /** Create the root marker. */
    method MarkRoot(root: Id)
      modifies this`rootMarks
      ensures rootMarks == old(rootMarks) + {root}
    {
      rootMarks := rootMarks + {root};
    }

    /** The guard: the reason to refuse, if there is one, and the parent's root. */
    method CheckLink(child: Id, parent: Id) returns (refusal: Option<Reason>, root: Id)
      ensures refusal == None <==> Accepts(View().links, child, parent)
      ensures refusal == Some(ParentLoops) <==>
              !Ends(View().links, parent) && |Reached(View().links, parent)| <= 17
      ensures refusal == Some(WouldLoop) <==>
              EndsWithin(View().links, parent, 15) && PassesThrough(View().links, parent, child)
      ensures refusal == None ==> root == Root(View().links, parent)
    {
      ghost var m := View().links;
      var up, problem, _ := Walk(parent);
      CleanDepth(m, parent, up, problem);
      root := up[|up| - 1];
      if problem == Loop {
        if EndsWithin(m, parent, 15) { assert Ends(m, parent); }
        return Some(ParentLoops), root;
      } else if problem == TooDeep || |up| > MAX_LINK_DEPTH {
        return Some(ParentTooDeep), root;
      } else if child in up {
        return Some(WouldLoop), root;
      }
      return None, root;
    }

    /** Check, replace, mark; `fault` is where the call dies, if it does. */
    method WriteLink(child: Id, parent: Id, fault: Fault) returns (r: Outcome)
      requires ValidId(child) && ValidId(parent)
      modifies this
      ensures View() == WriteStep(old(View()), Write(child, parent, fault))
      ensures r.Refused? <==> !Accepts(old(View()).links, child, parent)
      ensures r == Refused(ParentLoops) <==>
              !Ends(old(View()).links, parent) && |Reached(old(View()).links, parent)| <= 17
      ensures r == Refused(WouldLoop) <==>
              EndsWithin(old(View()).links, parent, 15)
              && PassesThrough(old(View()).links, parent, child)
      ensures r == Linked <==> Accepts(old(View()).links, child, parent) && fault == NoFault
    {
      var refusal, root := CheckLink(child, parent);
      if refusal.Some? { return Refused(refusal.value); }
      AcceptedParentEnds(View().links, child, parent);
      if fault == ReplaceFails { return Died; }
      Replace(child, parent);
      if fault == MarkFails { return Died; }
      MarkRoot(root);
      return Linked;
    }

    /** subagentStart: try the payload's three id fields in turn; each OSError is noted and passed over. */
    method RecordLinks(p: Payload, faults: seq<Fault>)
      requires |faults| == 3
      modifies this
      ensures View() == Run(old(View()), StartWrites(p, faults))
    {
      var parent := Get(p, "parent_conversation_id");
      if !IsValidId(parent) { return; }
      var fields := StartFields(p);
      ghost var all := WritesFor(parent.s, fields, faults);
      var i := 0;
      while i < 3
        invariant 0 <= i <= 3
        invariant Run(View(), WritesFor(parent.s, fields[i..], faults[i..])) == Run(old(View()), all)
      {
        var child := fields[i];
        assert fields[i..][1..] == fields[i + 1..] && faults[i..][1..] == faults[i + 1..];
        ghost var rest := WritesFor(parent.s, fields[i + 1..], faults[i + 1..]);
        if IsValidId(child) && child.s != parent.s {
          ghost var w := Write(child.s, parent.s, faults[i]);
          assert WritesFor(parent.s, fields[i..], faults[i..]) == [w] + rest;
          assert ([w] + rest)[1..] == rest;
          var _ := WriteLink(child.s, parent.s, faults[i]);
        } else {
          assert WritesFor(parent.s, fields[i..], faults[i..]) == [] + rest == rest;
        }
        i := i + 1;
      }
    }

    /** The first loop: the root of the first id with a clean chain of at least one link. */
    method LinkedRoot(cands: seq<Id>) returns (root: Option<Id>)
      ensures root == FirstLinkedRoot(View().links, cands)
    {
      ghost var f := View();
      for i := 0 to |cands|
        invariant FirstLinkedRoot(f.links, cands) == FirstLinkedRoot(f.links, cands[i..])
      {
        SearchStep(f, cands, i);
        var ids, problem, _ := Walk(cands[i]);
        CleanDepth(f.links, cands[i], ids, problem);
        if problem == Clean && |ids| > 1 { return Some(ids[|ids| - 1]); }
      }
      return None;
    }

    /** The second loop: the first id that is marked. */
    method MarkedId(cands: seq<Id>) returns (id: Option<Id>)
      ensures id == FirstMarked(View().marks, cands)
    {
      ghost var f := View();
      for i := 0 to |cands|
        invariant FirstMarked(f.marks, cands) == FirstMarked(f.marks, cands[i..])
      {
        SearchStep(f, cands, i);
        if cands[i] in rootMarks { return Some(cands[i]); }
      }
      return None;
    }

    /** Two passes over the ids: first for a linked one, then for a marked one. */
    method FamilyKeyOf(p: Payload) returns (key: Json)
      ensures key == FamilyKey(View(), p)
    {
      var cands := Candidates(p);
      var root := LinkedRoot(cands);
      if root.Some? { return Str(root.value); }
      var id := MarkedId(cands);
      if id.Some? { return Str(id.value); }
      return ChatKey(p);
    }
  }

  /** What each search does with the id it has come to. */
  lemma SearchStep(f: Forest, cands: seq<Id>, i: nat)
    requires i < |cands|
    ensures FirstLinkedRoot(f.links, cands[i..]) ==
            if cands[i] in f.links && EndsWithin(f.links, cands[i], 16) then Some(Root(f.links, cands[i]))
            else FirstLinkedRoot(f.links, cands[i + 1..])
    ensures FirstMarked(f.marks, cands[i..]) ==
            if cands[i] in f.marks then Some(cands[i]) else FirstMarked(f.marks, cands[i + 1..])
  {
    assert cands[i..][0] == cands[i] && cands[i..][1..] == cands[i + 1..];
  }

  lemma PrefixGrows(m: map<Id, Id>, c: Id, ids: seq<Id>)
    requires 0 < |ids| && ids == Prefix(m, c, |ids|) && NoRepeats(ids)
    requires ids[|ids| - 1] in m && m[ids[|ids| - 1]] !in ids
    ensures var more := ids + [m[ids[|ids| - 1]]];
            more == Prefix(m, c, |ids| + 1) && NoRepeats(more)
  {
    ClimbOne(m, c, |ids| - 1);
  }

  /** A clean walk of k ids is a chain of k - 1 links, and its ids are the chain. */
  lemma CleanDepth(m: map<Id, Id>, c: Id, ids: seq<Id>, problem: Problem)
    requires StopsAt(m, c, 16, ids, problem)
    ensures problem == Clean ==> forall n: nat :: EndsWithin(m, c, n) <==> |ids| - 1 <= n
    ensures problem == Clean ==> (|ids| > 1 <==> c in m)
    ensures problem == Clean ==> forall x :: x in ids <==> PassesThrough(m, c, x)
    ensures problem == TooDeep ==> !EndsWithin(m, c, 15)
  {
    var k := |ids| - 1;
    assert ids[k] == Climb(m, c, k) && ids[0] == c;
    if problem == Clean {
      WalkSawAll(m, c, 16, ids, problem);
      forall n: nat ensures EndsWithin(m, c, n) <==> k <= n {
        if k <= n {
          EndStays(m, c, k, n);
        } else {
          assert ids[n] == Climb(m, c, n) != ids[k];
          if EndsWithin(m, c, n) { EndStays(m, c, n, k); }
        }
      }
      assert c in m <==> !EndsWithin(m, c, 0);
    } else if problem == TooDeep && EndsWithin(m, c, 15) {
      EndStays(m, c, 15, k);
    }
  }
}
