/** What learning does to the reference file: all target fields or none, nothing else, the latest reading last. */
module ReferenceLaws {
  import opened Options
  import opened JsonTree
  import opened References

  /** Reading any path after one replacement. */
  lemma {:induction false} LookupAfterSet(tree: Json, path: seq<string>, key: string, value: Json, p: seq<string>)
    requires SetAt(tree, path, key, value).Some?
    ensures p <= path ==> Lookup(Some(tree), p).Some?
    ensures var updated := SetAt(tree, path, key, value);
            Lookup(updated, p) ==
            if path + [key] <= p then Lookup(Some(value), p[|path| + 1..])
            else if p <= path then SetAt(Lookup(Some(tree), p).value, path[|p|..], key, value)
            else Lookup(Some(tree), p)
    decreases |path|
  {
    if p == [] {
      assert path[0..] == path;
    } else if path == [] {
      assert p[0] == key ==> [] + [key] <= p && p[1..] == p[0 + 1..];
      assert Lookup(Some(tree), p) == Lookup(Get(Some(tree), p[0]), p[1..]);
      NoneLookup(p[1..]);
    } else {
      var sub := tree.members[path[0]];
      LookupAfterSet(sub, path[1..], key, value, p[1..]);
      assert path == [path[0]] + path[1..] && p == [p[0]] + p[1..];
      if p[0] == path[0] {
        assert path + [key] <= p <==> path[1..] + [key] <= p[1..];
        assert p <= path <==> p[1..] <= path[1..];
      }
    }
  }

  lemma {:induction false} NoneLookup(p: seq<string>)
    ensures Lookup(None, p) == None
    decreases |p|
  {
    if p != [] {
      NoneLookup(p[1..]);
    }
  }

  predicate IsObjectAt(tree: Json, path: seq<string>) {
    var o := Lookup(Some(tree), path);
    o.Some? && o.value.Object?
  }

  lemma {:induction false} SetNeedsObject(tree: Json, path: seq<string>, key: string, value: Json)
    ensures SetAt(tree, path, key, value).Some? <==> IsObjectAt(tree, path)
    decreases |path|
  {
    if path != [] {
      if tree.Object? && path[0] in tree.members {
        SetNeedsObject(tree.members[path[0]], path[1..], key, value);
      } else {
        NoneLookup(path[1..]);
      }
    }
  }

  /** Copying succeeds exactly when every field is there and the receiving object exists. */
  lemma {:induction false} CopyCommits(tree: Json, resp: Json, path: seq<string>, targets: seq<string>)
    ensures CopyFields(tree, resp, path, targets).Some? <==>
            (forall t :: t in targets ==> Get(Some(resp), t).Some?) && (targets != [] ==> IsObjectAt(tree, path))
    decreases |targets|
  {
    if targets != [] {
      var t := targets[0];
      var source := Get(Some(resp), t);
      assert t in targets;
      if source.Some? {
        SetNeedsObject(tree, path, t, source.value);
        if IsObjectAt(tree, path) {
          var next := SetAt(tree, path, t, source.value).value;
          CopyCommits(next, resp, path, targets[1..]);
          LookupAfterSet(tree, path, t, source.value, path);
          assert path[|path|..] == [] && !(path + [t] <= path);
        }
      }
    }
  }

  /** After copying, the targets hold the response's values and every path outside them reads as before. */
  lemma {:induction false} CopiedFields(tree: Json, resp: Json, path: seq<string>, targets: seq<string>, p: seq<string>)
    requires CopyFields(tree, resp, path, targets).Some?
    requires !(p <= path)
    ensures var r := CopyFields(tree, resp, path, targets);
            Lookup(r, p) ==
            if |p| > |path| && path <= p && p[|path|] in targets
            then Lookup(Get(Some(resp), p[|path|]), p[|path| + 1..])
            else Lookup(Some(tree), p)
    decreases |targets|
  {
    if targets != [] {
      var t := targets[0];
      var source := Get(Some(resp), t).value;
      var next := CopyField(tree, resp, path, t).value;
      CopiedFields(next, resp, path, targets[1..], p);
      LookupAfterSet(tree, path, t, source, p);
      assert path + [t] <= p <==> |p| > |path| && path <= p && p[|path|] == t;
      assert targets == [t] + targets[1..];
    }
  }

  /**
   * One call is a transaction on the file. It is refused exactly when the response is a success without a
   * learned class, without one of the class's fields, or without a place to keep them; the file then stays.
   * When it goes through, each target field reads as in the response and every other path as before.
   */
  lemma UpdateIsTransaction(loads: Loader, tree: Json, u: Update, p: seq<string>)
    requires IsReadSignal(u.signal) && loads(u.message).Some? && u.dumpOk && Successful(loads(u.message).value)
    ensures var resp, after := loads(u.message).value, FileAfter(Some(tree), loads, u);
            var plan := PlanOf(resp);
            var commits := plan.Some? && (forall t :: t in plan.value.targets ==> Get(Some(resp), t).Some?)
                           && (plan.value.targets != [] ==> IsObjectAt(tree, plan.value.path));
            && (Learned(tree, resp).Some? <==> commits)
            && (!commits ==> after == Some(tree))
            && (commits && !(p <= plan.value.path) ==>
                  Lookup(after, p) ==
                  if |p| > |plan.value.path| && plan.value.path <= p && p[|plan.value.path|] in plan.value.targets
                  then Lookup(Get(Some(resp), p[|plan.value.path|]), p[|plan.value.path| + 1..])
                  else Lookup(Some(tree), p))
  {
    var resp := loads(u.message).value;
    var plan := PlanOf(resp);
    if plan.Some? {
      CopyCommits(tree, resp, plan.value.path, plan.value.targets);
      if Learned(tree, resp).Some? && !(p <= plan.value.path) {
        CopiedFields(tree, resp, plan.value.path, plan.value.targets, p);
      }
    }
  }

  /** The objects that receive readings. */
  predicate IsPlanPath(q: seq<string>) {
    q == ["BATTERY"] || q == ["METER"] || (|q| == 2 && q[0] in ["SENSOR_MULTILEVEL", "SENSOR"])
  }

  lemma PlanShape(resp: Json)
    requires PlanOf(resp).Some?
    ensures IsPlanPath(PlanOf(resp).value.path)
  {
  }

  /** Learning never removes or creates a receiving object. */
  lemma {:induction false} ContainersStay(tree: Json, resp: Json, path: seq<string>, targets: seq<string>, q: seq<string>)
    requires IsPlanPath(path) && IsPlanPath(q)
    requires CopyFields(tree, resp, path, targets).Some?
    ensures IsObjectAt(CopyFields(tree, resp, path, targets).value, q) <==> IsObjectAt(tree, q)
    decreases |targets|
  {
    if targets != [] {
      var t := targets[0];
      var source := Get(Some(resp), t).value;
      var next := CopyField(tree, resp, path, t).value;
      LookupAfterSet(tree, path, t, source, q);
      assert (path + [t])[0] == path[0];
      if q <= path {
        assert q == path;
        assert path[|path|..] == [];
      }
      ContainersStay(next, resp, path, targets[1..], q);
    }
  }

  /** Whether a call goes through does not depend on what was learned before. */
  lemma CommitIsStable(tree: Json, resp: Json, other: Json)
    requires Learned(tree, resp).Some?
    ensures Learned(Learned(tree, resp).value, other).Some? <==> Learned(tree, other).Some?
  {
    var after := Learned(tree, resp).value;
    if Successful(other) && PlanOf(other).Some? {
      var plan := PlanOf(other).value;
      PlanShape(other);
      CopyCommits(tree, other, plan.path, plan.targets);
      CopyCommits(after, other, plan.path, plan.targets);
      if Successful(resp) {
        var done := PlanOf(resp).value;
        PlanShape(resp);
        ContainersStay(tree, resp, done.path, done.targets, plan.path);
      }
    }
  }

  function FilesAfter(file: Option<Json>, loads: Loader, us: seq<Update>): Option<Json> {
    if us == [] then file else FileAfter(FilesAfter(file, loads, us[..|us| - 1]), loads, us[|us| - 1])
  }

  predicate Commits(loads: Loader, tree: Json, u: Update) {
    IsReadSignal(u.signal) && u.dumpOk && loads(u.message).Some? && Learned(tree, loads(u.message).value).Some?
  }

  /** The value a committed call writes at the field `key` of the object `path`. */
  function WriteOf(loads: Loader, tree: Json, u: Update, path: seq<string>, key: string): Option<Json> {
    if !Commits(loads, tree, u) || !Successful(loads(u.message).value) then None
    else
      var plan := PlanOf(loads(u.message).value).value;
      if plan.path == path && key in plan.targets then Get(loads(u.message), key) else None
  }

  function LastWrite(loads: Loader, tree: Json, us: seq<Update>, path: seq<string>, key: string): Option<Json> {
    if us == [] then None
    else
      var w := WriteOf(loads, tree, us[|us| - 1], path, key);
      if w.Some? then w else LastWrite(loads, tree, us[..|us| - 1], path, key)
  }

  /**
   * Over any sequence of calls every field holds the value of the last call that went through and covers it,
   * and its original value if there was none; which calls go through is fixed by the original file.
   */
  lemma {:induction false} LatestReadingWins(loads: Loader, tree: Json, us: seq<Update>, path: seq<string>, key: string)
    requires IsPlanPath(path)
    ensures var after := FilesAfter(Some(tree), loads, us);
            && after.Some?
            && SameCommits(after.value, tree)
            && Lookup(after, path + [key]) ==
               var w := LastWrite(loads, tree, us, path, key);
               if w.Some? then w else Lookup(Some(tree), path + [key])
    decreases |us|
  {
    if us != [] {
      var u := us[|us| - 1];
      LatestReadingWins(loads, tree, us[..|us| - 1], path, key);
      var before := FilesAfter(Some(tree), loads, us[..|us| - 1]).value;
      LastCall(loads, tree, before, u, path, key);
    }
  }

  ghost predicate SameCommits(a: Json, b: Json) {
    forall other :: Learned(a, other).Some? <==> Learned(b, other).Some?
  }

  lemma LastCall(loads: Loader, tree: Json, before: Json, u: Update, path: seq<string>, key: string)
    requires IsPlanPath(path) && SameCommits(before, tree)
    ensures var after := FileAfter(Some(before), loads, u);
            && after.Some? && SameCommits(after.value, tree)
            && Lookup(after, path + [key]) ==
               var w := WriteOf(loads, tree, u, path, key);
               if w.Some? then w else Lookup(Some(before), path + [key])
  {
    if Commits(loads, tree, u) {
      var resp := loads(u.message).value;
      SameCommitsAfter(before, resp, tree);
      if Successful(resp) {
        FieldAfter(before, resp, path, key);
        if key in PlanOf(resp).value.targets {
          FieldPresent(before, resp, key);
        }
      }
    }
  }

  lemma SameCommitsAfter(before: Json, resp: Json, tree: Json)
    requires SameCommits(before, tree) && Learned(before, resp).Some?
    ensures SameCommits(Learned(before, resp).value, tree)
  {
    forall other
      ensures Learned(Learned(before, resp).value, other).Some? <==> Learned(tree, other).Some?
    {
      CommitIsStable(before, resp, other);
    }
  }

  lemma FieldPresent(tree: Json, resp: Json, key: string)
    requires Successful(resp) && Learned(tree, resp).Some? && key in PlanOf(resp).value.targets
    ensures Get(Some(resp), key).Some?
  {
    var plan := PlanOf(resp).value;
    CopyCommits(tree, resp, plan.path, plan.targets);
  }

  lemma FieldAfter(tree: Json, resp: Json, path: seq<string>, key: string)
    requires IsPlanPath(path) && Successful(resp) && Learned(tree, resp).Some?
    ensures var plan := PlanOf(resp).value;
            Lookup(Learned(tree, resp), path + [key]) ==
            if plan.path == path && key in plan.targets then Get(Some(resp), key) else Lookup(Some(tree), path + [key])
  {
    var plan := PlanOf(resp).value;
    var p := path + [key];
    PlanShape(resp);
    assert p[0] == path[0];
    CopiedFields(tree, resp, plan.path, plan.targets, p);
  }
}
