/**
 arcana/src/repository/path.rs: `normalize_repository_path`.

 Paths are byte strings; whether a component holds a control character is an opaque predicate. The main
 result: normalising a normalised path gives it back, unless it begins with a drive prefix, in which case
 it is refused as absolute.
 */
module RepositoryPath {
  import opened Wrappers
  import opened Lexicon
  import opened TextSplit

  datatype PathError = Empty | Absolute | ParentComponent | InvalidComponent

  const SLASH: byte := 47
  const BACKSLASH: byte := 92
  const DOT: Text := [46]
  const DOTS: Text := [46, 46]

  function Slashed(path: Text): Text {
    seq(|path|, i requires 0 <= i < |path| => if path[i] == BACKSLASH then SLASH else path[i])
  }

  predicate IsAlphabetic(b: byte) {
    65 <= b <= 90 || 97 <= b <= 122
  }

  predicate HasDrivePrefix(path: Text) {
    |path| >= 2 && IsAlphabetic(path[0]) && path[1] == 58
  }

  /** The components kept, or the first one refused. */
  function Keep(control: Text -> bool, components: seq<Text>): Result<seq<Text>, PathError> {
    if components == [] then Success([])
    else
      var kept :- Keep(control, components[..|components| - 1]);
      var last := components[|components| - 1];
      if last == [] || last == DOT then Success(kept)
      else if last == DOTS then Failure(ParentComponent)
      else if control(last) then Failure(InvalidComponent)
      else Success(kept + [last])
  }

  function Normalize(control: Text -> bool, path: Text): Result<Text, PathError> {
    if path == [] then Failure(Empty)
    else if 0 in path then Failure(InvalidComponent)
    else
      var slashed := Slashed(path);
      if slashed[0] == SLASH || HasDrivePrefix(slashed) then Failure(Absolute)
      else
        var kept :- Keep(control, Split(SLASH, slashed));
        Success(if kept == [] then DOT else Join(SLASH, kept))
  }

  lemma {:induction false} KeepPrefix(control: Text -> bool, components: seq<Text>, k: nat)
    requires k <= |components| && Keep(control, components[..k]).Failure?
    ensures Keep(control, components) == Keep(control, components[..k])
  {
    if k < |components| {
      assert components[..|components| - 1][..k] == components[..k];
      KeepPrefix(control, components[..|components| - 1], k);
    } else {
      assert components[..k] == components;
    }
  }

  method NormalizePath(control: Text -> bool, path: Text) returns (r: Result<Text, PathError>)
    ensures r == Normalize(control, path)
  {
    if path == [] { return Failure(Empty); }
    if 0 in path { return Failure(InvalidComponent); }
    var slashed := Slashed(path);
    if slashed[0] == SLASH || HasDrivePrefix(slashed) { return Failure(Absolute); }
    var split := Split(SLASH, slashed);
    var components: seq<Text> := [];
    var i := 0;
    while i < |split|
      invariant 0 <= i <= |split| && Keep(control, split[..i]) == Success(components)
    {
      assert split[..i + 1][..i] == split[..i];
      var component := split[i];
      if component == DOTS {
        KeepPrefix(control, split, i + 1);
        return Failure(ParentComponent);
      } else if component != [] && component != DOT {
        if control(component) {
          KeepPrefix(control, split, i + 1);
          return Failure(InvalidComponent);
        }
        components := components + [component];
      }
      i := i + 1;
    }
    assert split[..i] == split;
    return Success(if components == [] then DOT else Join(SLASH, components));
  }

  // ----- what normalising does -----

  /** Left out of the normal form. */
  predicate Skipped(component: Text) {
    component == [] || component == [46]
  }

  /** Refused, wherever it stands. */
  predicate Refuses(control: Text -> bool, component: Text) {
    component == [46, 46] || (!Skipped(component) && control(component))
  }

  /** These are the components that are not skipped, in their order. */
  ghost predicate PicksOut(indices: seq<nat>, components: seq<Text>, kept: seq<Text>) {
    && |indices| == |kept|
    && (forall k :: 0 <= k < |kept| ==> indices[k] < |components| && kept[k] == components[indices[k]] && !Skipped(kept[k]))
    && (forall j, k :: 0 <= j < k < |kept| ==> indices[j] < indices[k])
    && (forall i :: 0 <= i < |components| && !Skipped(components[i]) ==> i in indices)
  }

  predicate NoneRefused(control: Text -> bool, components: seq<Text>) {
    forall i :: 0 <= i < |components| ==> !Refuses(control, components[i])
  }

  lemma {:induction false} KeepAccepts(control: Text -> bool, components: seq<Text>)
    ensures Keep(control, components).Success? <==> NoneRefused(control, components)
  {
    if components != [] {
      var n := |components| - 1;
      KeepAccepts(control, components[..n]);
      assert forall i :: 0 <= i < n ==> components[..n][i] == components[i];
    }
  }

  lemma PicksMore(indices: seq<nat>, before: seq<Text>, last: Text, kept: seq<Text>)
    requires PicksOut(indices, before, kept)
    ensures if Skipped(last) then PicksOut(indices, before + [last], kept) else PicksOut(indices + [|before|], before + [last], kept + [last])
  {
    var n, all := |before|, before + [last];
    assert forall i :: 0 <= i < n ==> all[i] == before[i];
    if Skipped(last) {
    } else {
      var more := indices + [n];
      forall i | 0 <= i < |all| && !Skipped(all[i]) ensures i in more {
        if i < n { assert i in indices; } else { assert more[|indices|] == n; }
      }
    }
  }

  lemma NothingPicked()
    ensures PicksOut([], [], [])
  {
  }

  lemma KeepStep(control: Text -> bool, before: seq<Text>, last: Text)
    requires Keep(control, before + [last]).Success?
    ensures Keep(control, before).Success?
    ensures Keep(control, before + [last]).value == if Skipped(last) then Keep(control, before).value else Keep(control, before).value + [last]
  {
    assert (before + [last])[..|before|] == before;
  }

  lemma {:induction false} KeepPicks(control: Text -> bool, components: seq<Text>) returns (indices: seq<nat>)
    requires Keep(control, components).Success?
    ensures PicksOut(indices, components, Keep(control, components).value)
    decreases |components|
  {
    hide PicksOut;
    if components == [] {
      indices := [];
      NothingPicked();
    } else {
      hide Keep, Skipped;
      var n := |components| - 1;
      var before, last := components[..n], components[n];
      assert components == before + [last];
      KeepStep(control, before, last);
      indices := KeepPicks(control, before);
      PicksMore(indices, before, last, Keep(control, before).value);
      if !Skipped(last) { indices := indices + [n]; }
    }
  }

  /** Is the path empty, absolute, or does it hold a zero byte? */
  predicate Unusable(path: Text) {
    path == [] || 0 in path || path[0] == 47 || path[0] == 92 || HasDrivePrefix(path)
  }

  /**
   A path is accepted exactly when it is not empty, holds no zero byte, begins with neither slash, backslash nor drive, and no
   component is ".." or holds a control character. Its components are then those that are neither empty nor ".", in
   their order; if there are none it is ".".
   */
  lemma NormalizeExact(control: Text -> bool, path: Text) returns (indices: seq<nat>, kept: seq<Text>)
    ensures var components := Split(47, Slashed(path));
      && (Normalize(control, path).Success? <==> !Unusable(path) && NoneRefused(control, components))
      && (Normalize(control, path).Success? ==>
            && PicksOut(indices, components, kept)
            && Normalize(control, path).value == if kept == [] then [46] else Join(47, kept))
  {
    hide Keep, Split, Join, PicksOut, NoneRefused, HasDrivePrefix;
    var components := Split(SLASH, Slashed(path));
    KeepAccepts(control, components);
    indices, kept := [], [];
    if path != [] { SlashedStart(path); }
    hide Slashed;
    if Keep(control, components).Success? {
      indices := KeepPicks(control, components);
      kept := Keep(control, components).value;
    }
    if Unusable(path) {
      assert Normalize(control, path).Failure?;
    } else {
      assert Normalize(control, path).Success? <==> Keep(control, components).Success?;
    }
  }

  lemma SlashedStart(path: Text)
    requires path != []
    ensures Slashed(path)[0] == SLASH <==> path[0] == 47 || path[0] == 92
    ensures HasDrivePrefix(Slashed(path)) <==> HasDrivePrefix(path)
  {
  }

  // ----- normalising twice -----

  /** A component that normalisation keeps. */
  predicate Plain(control: Text -> bool, component: Text) {
    && Keepable(control, component)
    && SLASH !in component && BACKSLASH !in component && 0 !in component
  }

  predicate Keepable(control: Text -> bool, component: Text) {
    component != [] && component != DOT && component != DOTS && !control(component)
  }

  lemma {:induction false} KeptKeepable(control: Text -> bool, components: seq<Text>)
    requires Keep(control, components).Success?
    ensures forall c :: c in Keep(control, components).value ==> c in components && Keepable(control, c)
  {
    if components != [] {
      var before, last := components[..|components| - 1], components[|components| - 1];
      KeptKeepable(control, before);
      assert components == before + [last];
      forall c | c in Keep(control, components).value ensures c in components && Keepable(control, c) {
        assert c in Keep(control, before).value || c == last;
      }
    }
  }

  lemma {:induction false} KeepAll(control: Text -> bool, components: seq<Text>)
    requires forall c :: c in components ==> Keepable(control, c)
    ensures Keep(control, components) == Success(components)
  {
    if components != [] {
      var before, last := components[..|components| - 1], components[|components| - 1];
      assert components == before + [last];
      assert last in components;
      KeepAll(control, before);
    }
  }

  lemma KeptPlain(control: Text -> bool, path: Text)
    requires 0 !in path && Keep(control, Split(SLASH, Slashed(path))).Success?
    ensures forall c :: c in Keep(control, Split(SLASH, Slashed(path))).value ==> Plain(control, c)
  {
    var slashed := Slashed(path);
    SplitPlain(SLASH, slashed);
    KeptKeepable(control, Split(SLASH, slashed));
    assert BACKSLASH !in slashed && 0 !in slashed;
    forall c | c in Keep(control, Split(SLASH, slashed)).value ensures Plain(control, c) {
      assert c in Split(SLASH, slashed);
      assert forall b :: b in c ==> b in slashed;
    }
  }

  lemma JoinNormalizes(control: Text -> bool, kept: seq<Text>)
    requires kept != [] && forall c :: c in kept ==> Plain(control, c)
    ensures Normalize(control, Join(SLASH, kept)) ==
            if HasDrivePrefix(Join(SLASH, kept)) then Failure(Absolute) else Success(Join(SLASH, kept))
  {
    var path := Join(SLASH, kept);
    JoinBytes(SLASH, kept);
    assert Plain(control, kept[0]);
    assert BACKSLASH !in path && 0 !in path;
    assert Slashed(path) == path;
    assert path[0] == kept[0][0] && kept[0][0] in kept[0];
    SplitJoin(SLASH, kept);
    KeepAll(control, kept);
  }

  lemma DotNormalizes(control: Text -> bool)
    ensures Normalize(control, DOT) == Success(DOT)
  {
    assert Slashed(DOT) == DOT;
    SplitAt(SLASH, DOT, []);
    KeepNext(control, [], DOT);
    assert [] + [DOT] == [DOT];
    hide Keep, Split;
  }

  /** A normalised path is a fixed point, unless normalisation has exposed a drive prefix. */
  lemma NormalizeTwice(control: Text -> bool, path: Text)
    requires Normalize(control, path).Success?
    ensures var once := Normalize(control, path).value;
      Normalize(control, once) == if HasDrivePrefix(once) then Failure(Absolute) else Success(once)
  {
    var kept := Keep(control, Split(SLASH, Slashed(path))).value;
    if kept == [] {
      DotNormalizes(control);
    } else {
      KeptPlain(control, path);
      JoinNormalizes(control, kept);
    }
  }

  lemma KeepNext(control: Text -> bool, before: seq<Text>, last: Text)
    ensures Keep(control, []) == Success([])
    ensures Keep(control, before).Success? && last == DOT ==> Keep(control, before + [last]) == Keep(control, before)
    ensures Keep(control, before).Success? && Plain(control, last) ==>
              Keep(control, before + [last]) == Success(Keep(control, before).value + [last])
  {
    assert (before + [last])[..|before|] == before;
  }

  const DRIVE: Text := [67, 58]
  const NAME: Text := [120]

  lemma DriveKept(control: Text -> bool)
    requires Plain(control, DRIVE) && Plain(control, NAME)
    ensures Keep(control, [DOT, DRIVE, NAME]) == Success([DRIVE, NAME])
  {
    hide Keep, Plain;
    KeepNext(control, [], DOT);
    KeepNext(control, [DOT], DRIVE);
    KeepNext(control, [DOT, DRIVE], NAME);
    assert [] + [DOT] == [DOT] && [DOT] + [DRIVE] == [DOT, DRIVE] && [DOT, DRIVE] + [NAME] == [DOT, DRIVE, NAME];
    assert [] + [DRIVE] == [DRIVE] && [DRIVE] + [NAME] == [DRIVE, NAME];
  }

  lemma DriveSplit()
    ensures Split(SLASH, DOT + [SLASH] + (DRIVE + [SLASH] + NAME)) == [DOT, DRIVE, NAME]
  {
    hide Split;
    SplitAt(SLASH, DOT, DRIVE + [SLASH] + NAME);
    SplitAt(SLASH, DRIVE, NAME);
    SplitAt(SLASH, NAME, []);
    assert [DOT] + ([DRIVE] + [NAME]) == [DOT, DRIVE, NAME];
  }

  /** The path "./C:/x" normalises to "C:/x", which normalisation then refuses. */
  lemma DriveExposed(control: Text -> bool)
    requires !control(DRIVE) && !control(NAME)
    ensures Normalize(control, DOT + [SLASH] + (DRIVE + [SLASH] + NAME)) == Success(DRIVE + [SLASH] + NAME)
    ensures Normalize(control, DRIVE + [SLASH] + NAME) == Failure(Absolute)
  {
    hide Keep, Split;
    var once := DRIVE + [SLASH] + NAME;
    var path := DOT + [SLASH] + once;
    assert Slashed(path) == path && Slashed(once) == once;
    assert DRIVE[0] != DOTS[0] && NAME[0] != DOT[0];
    assert Plain(control, DRIVE) && Plain(control, NAME);
    DriveSplit();
    DriveKept(control);
    assert [DRIVE, NAME][1..] == [NAME];
    assert Join(SLASH, [DRIVE, NAME]) == once;
  }
}
