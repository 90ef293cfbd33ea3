/**
  Collision resolution and the single-file move (`move_file`).

  The destination directory is the finite set of entry names it holds.
  `Resolved` is the specification of the resolver: keep the base name
  when it is free, otherwise take `"{stem} ({i}){suffix}"` for the
  least i >= 1 whose candidate is free. `Destination.Resolve` is the
  probe loop itself, proved to compute exactly that name.
 */
module Resolver {
  import opened Names

  /** The name probed for counter `i` when `name` is taken. */
  function Probe(name: string, i: nat): string
  {
    Candidate(Stem(name), Suffix(name), i)
  }

  lemma ProbeExample()
    ensures Probe("a.txt", 1) == "a (1).txt"
  {
    LastDotSkips("a.", "txt");
    assert "a." + "txt" == "a.txt";
  }

  /** The candidate for counter `j` is already in the directory. */
  ghost predicate Taken(existing: set<string>, name: string, j: nat)
  {
    Probe(name, j) in existing
  }

  /** `i` is the first counter whose candidate is absent from `existing`. */
  ghost predicate FirstFree(existing: set<string>, name: string, i: nat)
  {
    1 <= i && !Taken(existing, name, i) &&
    forall j :: 1 <= j < i ==> Taken(existing, name, j)
  }

  /** The first k probes are k different names. */
  lemma {:induction false} ProbeImageSize(name: string, k: nat)
    ensures |ProbeImage(name, k)| == k
    decreases k
  {
    if k > 0 {
      ProbeImageSize(name, k - 1);
      ProbeImageStep(name, k);
      forall j | 1 <= j <= k - 1
        ensures Probe(name, j) != Probe(name, k)
      {
        CandidateInjective(Stem(name), Suffix(name), j, k);
      }
    }
  }

  /** The names probed for counters 1 to k. */
  ghost function ProbeImage(name: string, k: nat): set<string>
  {
    set j | 1 <= j <= k :: Probe(name, j)
  }

  lemma ProbeImageStep(name: string, k: nat)
    requires k > 0
    ensures ProbeImage(name, k) == ProbeImage(name, k - 1) + {Probe(name, k)}
  {
  }

  /** Pigeonhole: among the first |existing| + 1 probes one is free. */
  lemma FreeProbeExists(existing: set<string>, name: string) returns (k: nat)
    ensures 1 <= k <= |existing| + 1 && Probe(name, k) !in existing
  {
    var n := |existing| + 1;
    var image := ProbeImage(name, n);
    ProbeImageSize(name, n);
    assert |image - existing| > 0 by {
      assert |image| == |image - existing| + |image * existing|;
      assert image * existing <= existing;
    }
    var x :| x in image - existing;
    k :| 1 <= k <= n && Probe(name, k) == x;
  }

  /** Below any free counter lies a first free one. */
  lemma {:induction false} FirstFreeBelow(existing: set<string>, name: string, k: nat) returns (i: nat)
    requires 1 <= k && Probe(name, k) !in existing
    ensures FirstFree(existing, name, i) && i <= k
    decreases k
  {
    if forall j :: 1 <= j < k ==> Taken(existing, name, j) {
      i := k;
    } else {
      var j :| 1 <= j < k && !Taken(existing, name, j);
      i := FirstFreeBelow(existing, name, j);
    }
  }

  lemma FirstFreeUnique(existing: set<string>, name: string, i: nat, k: nat)
    requires FirstFree(existing, name, i) && FirstFree(existing, name, k)
    ensures i == k
  {
  }

  /** The counter the probe loop stops at; it never exceeds |existing| + 1. */
  ghost function FreeIndex(existing: set<string>, name: string): (i: nat)
    ensures FirstFree(existing, name, i)
    ensures i <= |existing| + 1
  {
    assert exists i: nat :: FirstFree(existing, name, i) && i <= |existing| + 1 by {
      var k := FreeProbeExists(existing, name);
      var i := FirstFreeBelow(existing, name, k);
    }
    var i: nat :| FirstFree(existing, name, i) && i <= |existing| + 1;
    i
  }

  /** The destination name `move_file` picks for `name`. */
  ghost function Resolved(existing: set<string>, name: string): (r: string)
    ensures r !in existing
  {
    if name !in existing then name else Probe(name, FreeIndex(existing, name))
  }

  /** A taken name resolves to the probe at its first free counter. */
  lemma ResolvedIsProbe(existing: set<string>, name: string, i: nat)
    requires name in existing && FirstFree(existing, name, i)
    ensures Resolved(existing, name) == Probe(name, i)
  {
    FirstFreeUnique(existing, name, i, FreeIndex(existing, name));
  }

  /** With `a.txt` and `b.txt` present, `a.txt` resolves to `a (1).txt`. */
  lemma ResolveExample()
    ensures Resolved({"a.txt", "b.txt"}, "a.txt") == "a (1).txt"
  {
    ProbeExample();
    assert FirstFree({"a.txt", "b.txt"}, "a.txt", 1);
    ResolvedIsProbe({"a.txt", "b.txt"}, "a.txt", 1);
  }

  /** What the source's resolver promises, stated without choosing. */
  ghost predicate IsResolution(existing: set<string>, name: string, r: string)
  {
    if name !in existing then r == name
    else exists i: nat :: FirstFree(existing, name, i) && r == Probe(name, i)
  }

  /** Exactly one name meets the promise, and it is `Resolved`: the
      choice is determined by the name set and the base name alone. */
  lemma ResolutionUnique(existing: set<string>, name: string, r: string)
    ensures IsResolution(existing, name, r) <==> r == Resolved(existing, name)
  {
    if name in existing && IsResolution(existing, name, r) {
      var i: nat :| FirstFree(existing, name, i) && r == Probe(name, i);
      FirstFreeUnique(existing, name, i, FreeIndex(existing, name));
    }
  }

  /** The destination directory: its path and the names it holds. */
  class Destination {
    const path: string
    var present: bool
    var names: set<string>

    /** A directory that does not exist holds nothing. */
    ghost predicate Valid()
      reads this
    {
      present || names == {}
    }

    constructor (path: string, present: bool, names: set<string>)
      requires present || names == {}
      ensures this.path == path && this.present == present && this.names == names
      ensures Valid()
    {
      this.path := path;
      this.present := present;
      this.names := names;
    }

    /** main.py:11-23: keep the base name if free, else probe
        "{stem} (1){suffix}", "{stem} (2){suffix}", ... in order. */
    method Resolve(name: string) returns (dest: string)
      ensures dest == Resolved(names, name)
      ensures dest !in names
      ensures name !in names ==> dest == name
      ensures name in names ==>
        exists i: nat :: FirstFree(names, name, i) && i <= |names| + 1 &&
          dest == Probe(name, i)
    {
      dest := name;
      if name in names {
        var stem, suffix := Stem(name), Suffix(name);
        var i := 1;
        ghost var bound := FreeIndex(names, name);
        while true
          invariant 1 <= i <= bound
          invariant forall j :: 1 <= j < i ==> Taken(names, name, j)
          decreases bound - i
        {
          var newDest := Candidate(stem, suffix, i);
          if newDest !in names {
            FirstFreeUnique(names, name, i, bound);
            dest := newDest;
            break;
          }
          i := i + 1;
        }
      }
    }

    /** main.py:7-26: resolve the name, then move the file there; the
        directory gains exactly that one name. The move needs the
        destination directory to exist. */
    method MoveFile(src: SourceFile) returns (dest: string)
      requires present
      modifies this`names
      ensures Valid()
      ensures dest == Resolved(old(names), src.name)
      ensures dest !in old(names) && names == old(names) + {dest}
      ensures |names| == |old(names)| + 1
    {
      dest := Resolve(src.name);
      names := names + {dest};
    }
  }
}
