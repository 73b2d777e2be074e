/**
 * Speciation: the first-match assignment of genome indices to species against a
 * growing list of representatives, and the swap-with-last removal of the species
 * that ended up empty.
 */
module Species {
  import opened Genes
  import opened Genomes

  // ---------------------------------------------------------------------------
  // Partitions of genome indices

  /** A species list holds genome indices in strictly ascending order. */
  predicate StrictlyAscending(l: seq<nat>) {
    forall p, q :: 0 <= p < q < |l| ==> l[p] < l[q]
  }

  /** Index `m` is in some list. */
  predicate Listed(s: seq<seq<nat>>, m: nat) {
    exists k :: 0 <= k < |s| && m in s[k]
  }

  /** Every index below `n` is in some list. */
  predicate Covers(s: seq<seq<nat>>, n: nat) {
    forall m :: 0 <= m < n ==> Listed(s, m)
  }

  /** No index is in two lists. */
  predicate Disjoint(s: seq<seq<nat>>) {
    forall k1, k2, m :: 0 <= k1 < |s| && 0 <= k2 < |s| && m in s[k1] && m in s[k2] ==> k1 == k2
  }

  /** Every listed index is below `n`. */
  predicate Within(s: seq<seq<nat>>, n: nat) {
    forall k, p :: 0 <= k < |s| && 0 <= p < |s[k]| ==> s[k][p] < n
  }

  /** Each index below `n` is in exactly one list, and each list is ascending. */
  predicate Partition(s: seq<seq<nat>>, n: nat) {
    Covers(s, n) && Disjoint(s) && Within(s, n) && forall k :: 0 <= k < |s| ==> StrictlyAscending(s[k])
  }

  /** `Partition` read as "exactly one": the list holding `m` is unique. */
  lemma PartitionUnique(s: seq<seq<nat>>, n: nat, m: nat)
    requires Partition(s, n) && m < n
    ensures exists k :: 0 <= k < |s| && m in s[k] && forall k' :: 0 <= k' < |s| && m in s[k'] ==> k' == k
  {
    assert Listed(s, m);
  }

  // ---------------------------------------------------------------------------
  // First-match assignment (the loop at the top of generate_species)

  /** A distance below the threshold; a NaN distance is below nothing. */
  predicate Below(d: Distance, t: real) {
    d.Finite? && d.value < t
  }

  /** The distance `speciation_coeff(a, b)` returns. */
  function Coeff(a: Genome, b: Genome): Distance {
    DistanceOf(a, b, Align(a.connectionGenes, b.connectionGenes))
  }

  /** The first representative from position `j` on that `g` is closer to than `t`,
      or `|reps|` when there is none. */
  function FirstClose(g: Genome, reps: seq<Genome>, t: real, j: nat): (k: nat)
    requires j <= |reps|
    ensures j <= k <= |reps|
    ensures k < |reps| ==> Below(Coeff(g, reps[k]), t)
    ensures forall m :: j <= m < k ==> !Below(Coeff(g, reps[m]), t)
    decreases |reps| - j
  {
    if j == |reps| || Below(Coeff(g, reps[j]), t) then j else FirstClose(g, reps, t, j + 1)
  }

  /** Genome `g`, index `i`, joins its first close species, or founds a new one with
      itself as representative. */
  function Place(sp: seq<seq<nat>>, reps: seq<Genome>, g: Genome, i: nat, t: real): (r: (seq<seq<nat>>, seq<Genome>))
    requires |sp| == |reps|
    ensures |r.0| == |r.1|
  {
    var k := FirstClose(g, reps, t, 0);
    if k < |reps| then (sp[k := sp[k] + [i]], reps) else (sp + [[i]], reps + [g])
  }

  /** The species and representatives once genomes `0 .. n-1` are placed in order,
      each against the representatives known at its turn. */
  function Assign(gs: seq<Genome>, sp: seq<seq<nat>>, reps: seq<Genome>, t: real, n: nat): (r: (seq<seq<nat>>, seq<Genome>))
    requires |sp| == |reps| && n <= |gs|
    ensures |r.0| == |r.1|
  {
    if n == 0 then (sp, reps) else
      var p := Assign(gs, sp, reps, t, n - 1);
      Place(p.0, p.1, gs[n - 1], n - 1, t)
  }

  /** Adding a fresh index `i` at the end of list `k` extends a partition of
      `0 .. i-1` to one of `0 .. i`. */
  lemma JoinPartition(sp: seq<seq<nat>>, k: nat, i: nat)
    requires k < |sp| && Partition(sp, i)
    ensures Partition(sp[k := sp[k] + [i]], i + 1)
  {
    var r := sp[k := sp[k] + [i]];
    assert i in r[k];
    forall m | 0 <= m < i + 1 ensures Listed(r, m) {
      if m < i {
        assert Listed(sp, m);
        var q :| 0 <= q < |sp| && m in sp[q];
        assert m in r[q];
      }
    }
    forall q1, q2, m | 0 <= q1 < |r| && 0 <= q2 < |r| && m in r[q1] && m in r[q2] ensures q1 == q2 {
      if m != i {
        assert m in sp[q1] && m in sp[q2];
      } else {
        assert i !in sp[q1] && i !in sp[q2];
      }
    }
  }

  /** A new singleton list `[i]` extends a partition of `0 .. i-1` to one of `0 .. i`. */
  lemma FoundPartition(sp: seq<seq<nat>>, i: nat)
    requires Partition(sp, i)
    ensures Partition(sp + [[i]], i + 1)
  {
    var r := sp + [[i]];
    assert i in r[|sp|];
    forall m | 0 <= m < i + 1 ensures Listed(r, m) {
      if m < i {
        assert Listed(sp, m);
        var q :| 0 <= q < |sp| && m in sp[q];
        assert m in r[q];
      }
    }
    forall q1, q2, m | 0 <= q1 < |r| && 0 <= q2 < |r| && m in r[q1] && m in r[q2] ensures q1 == q2 {
      if m != i {
        assert m in sp[q1] && m in sp[q2];
      } else {
        forall q | 0 <= q < |sp| ensures i !in r[q] {
          assert r[q] == sp[q];
        }
      }
    }
  }

  /** Placing index `i` extends a partition of `0 .. i-1` to one of `0 .. i`: the index
      joins its first close species, or founds a species at the end with `g` as its
      representative. */
  lemma PlacePartition(sp: seq<seq<nat>>, reps: seq<Genome>, g: Genome, i: nat, t: real)
    requires |sp| == |reps| && Partition(sp, i)
    ensures var r := Place(sp, reps, g, i, t); var k := FirstClose(g, reps, t, 0);
      Partition(r.0, i + 1) && r.1[..|reps|] == reps &&
      (k < |reps| ==> r == (sp[k := sp[k] + [i]], reps)) &&
      (k == |reps| ==> r == (sp + [[i]], reps + [g]))
  {
    var k := FirstClose(g, reps, t, 0);
    if k < |reps| {
      JoinPartition(sp, k, i);
    } else {
      FoundPartition(sp, i);
    }
  }

  /** Placing index `i` extends the partition and keeps the representatives known so far. */
  lemma PlaceGrows(sp: seq<seq<nat>>, reps: seq<Genome>, g: Genome, i: nat, t: real)
    requires |sp| == |reps| && Partition(sp, i)
    ensures Partition(Place(sp, reps, g, i, t).0, i + 1)
    ensures |reps| <= |Place(sp, reps, g, i, t).1| && Place(sp, reps, g, i, t).1[..|reps|] == reps
  {
    PlacePartition(sp, reps, g, i, t);
  }

  /** A prefix of a prefix is a prefix. */
  lemma PrefixOfPrefix<T>(a: seq<T>, b: seq<T>, c: seq<T>)
    requires |a| <= |b| <= |c| && c[..|b|] == b && b[..|a|] == a
    ensures c[..|a|] == a
  {
    assert c[..|a|] == c[..|b|][..|a|];
  }

  /** Assignment from empty species builds a partition of the placed indices and only
      ever appends representatives. */
  lemma {:induction false} AssignPartition(gs: seq<Genome>, sp: seq<seq<nat>>, reps: seq<Genome>, t: real, n: nat)
    requires |sp| == |reps| && n <= |gs| && Partition(sp, 0)
    ensures Partition(Assign(gs, sp, reps, t, n).0, n)
    ensures |reps| <= |Assign(gs, sp, reps, t, n).1| && Assign(gs, sp, reps, t, n).1[..|reps|] == reps
  {
    if n > 0 {
      AssignPartition(gs, sp, reps, t, n - 1);
      AssignStep(gs, sp, reps, t, n, Assign(gs, sp, reps, t, n - 1));
    }
  }

  /** One more genome placed: the partition grows by its index and the representatives
      keep their prefix. */
  lemma AssignStep(gs: seq<Genome>, sp: seq<seq<nat>>, reps: seq<Genome>, t: real, n: nat,
                   p: (seq<seq<nat>>, seq<Genome>))
    requires |sp| == |reps| && 0 < n <= |gs| && p == Assign(gs, sp, reps, t, n - 1)
    requires Partition(p.0, n - 1) && |reps| <= |p.1| && p.1[..|reps|] == reps
    ensures Partition(Assign(gs, sp, reps, t, n).0, n)
    ensures |reps| <= |Assign(gs, sp, reps, t, n).1| && Assign(gs, sp, reps, t, n).1[..|reps|] == reps
  {
    var q := Place(p.0, p.1, gs[n - 1], n - 1, t);
    assert Assign(gs, sp, reps, t, n) == q;
    PlaceGrows(p.0, p.1, gs[n - 1], n - 1, t);
    PrefixOfPrefix(reps, p.1, q.1);
  }

  /** `k` empty species. */
  function Empties(k: nat): (r: seq<seq<nat>>)
    ensures |r| == k && forall q :: 0 <= q < k ==> r[q] == []
  {
    seq(k, _ => [])
  }

  /** Lists that are all empty partition the empty range. */
  lemma EmptyPartition(k: nat)
    ensures Partition(Empties(k), 0)
  {
  }

  // ---------------------------------------------------------------------------
  // Swap-with-last removal of empty species (the loop at the bottom of generate_species)

  /** Element `i` replaced by the last one, and the last one dropped. */
  function RemoveAt<T>(z: seq<T>, i: nat): (w: seq<T>)
    requires i < |z|
    ensures |w| == |z| - 1
  {
    z[i := z[|z| - 1]][..|z| - 1]
  }

  /** The prefix before `i` is kept, and the rest holds the elements after `i`. */
  lemma RemoveAtParts<T>(z: seq<T>, i: nat)
    requires i < |z|
    ensures RemoveAt(z, i)[..i] == z[..i]
    ensures multiset(RemoveAt(z, i)[i..]) == multiset(z[i + 1..])
  {
    var w := RemoveAt(z, i);
    if i < |z| - 1 {
      assert w[i..] == [z[|z| - 1]] + z[i + 1..|z| - 1];
      assert z[i + 1..] == z[i + 1..|z| - 1] + [z[|z| - 1]];
    }
  }

  /** The species and representatives after the removal loop has visited positions
      `i, i-1, .., 0`, in that order. */
  function Prune(sp: seq<seq<nat>>, reps: seq<Genome>, i: int): (r: (seq<seq<nat>>, seq<Genome>))
    requires |sp| == |reps| && i < |sp|
    ensures |r.0| == |r.1| <= |sp|
    decreases i + 1
  {
    if i < 0 then (sp, reps)
    else if sp[i] == [] then Prune(RemoveAt(sp, i), RemoveAt(reps, i), i - 1)
    else Prune(sp, reps, i - 1)
  }

  /** Species paired with their representatives. */
  function Zip(sp: seq<seq<nat>>, reps: seq<Genome>): (z: seq<(seq<nat>, Genome)>)
    requires |sp| == |reps|
    ensures |z| == |sp|
  {
    seq(|sp|, k requires 0 <= k < |sp| => (sp[k], reps[k]))
  }

  /** The pairs whose species is not empty, in order. */
  function NonEmpty(z: seq<(seq<nat>, Genome)>): seq<(seq<nat>, Genome)> {
    if z == [] then []
    else NonEmpty(z[..|z| - 1]) + (if z[|z| - 1].0 != [] then [z[|z| - 1]] else [])
  }

  lemma ZipRemoveAt(sp: seq<seq<nat>>, reps: seq<Genome>, i: nat)
    requires |sp| == |reps| && i < |sp|
    ensures Zip(RemoveAt(sp, i), RemoveAt(reps, i)) == RemoveAt(Zip(sp, reps), i)
  {
  }

  /**
   * Removal keeps every species with its own representative: the pairs that remain
   * are the non-empty pairs among positions `0 .. i` plus all pairs after `i`.
   */
  lemma {:induction false} PruneKeepsPairs(sp: seq<seq<nat>>, reps: seq<Genome>, i: int)
    requires |sp| == |reps| && -1 <= i < |sp|
    ensures var r := Prune(sp, reps, i); var z := Zip(sp, reps);
      multiset(Zip(r.0, r.1)) == multiset(NonEmpty(z[..i + 1])) + multiset(z[i + 1..])
    decreases i + 1
  {
    var z := Zip(sp, reps);
    if i < 0 {
      assert z[0..] == z;
    } else {
      assert z[..i + 1][..i] == z[..i];
      if sp[i] == [] {
        var sp', reps' := RemoveAt(sp, i), RemoveAt(reps, i);
        PruneKeepsPairs(sp', reps', i - 1);
        ZipRemoveAt(sp, reps, i);
        RemoveAtParts(z, i);
      } else {
        PruneKeepsPairs(sp, reps, i - 1);
        assert z[i..] == [z[i]] + z[i + 1..];
      }
    }
  }

  /** No list is empty. */
  predicate NoneEmpty(sp: seq<seq<nat>>) {
    forall k :: 0 <= k < |sp| ==> |sp[k]| > 0
  }

  /** Once every position above `i` holds a non-empty species, none is left empty. */
  lemma {:induction false} PruneNonEmpty(sp: seq<seq<nat>>, reps: seq<Genome>, i: int)
    requires |sp| == |reps| && -1 <= i < |sp|
    requires forall k :: i < k < |sp| ==> |sp[k]| > 0
    ensures NoneEmpty(Prune(sp, reps, i).0)
    decreases i + 1
  {
    if i >= 0 {
      if sp[i] == [] {
        var sp' := RemoveAt(sp, i);
        forall k | i - 1 < k < |sp'| ensures |sp'[k]| > 0 {
          if k == i { assert sp'[k] == sp[|sp| - 1]; }
          else { assert sp'[k] == sp[k]; }
        }
        PruneNonEmpty(sp', RemoveAt(reps, i), i - 1);
      } else {
        PruneNonEmpty(sp, reps, i - 1);
      }
    }
  }

  /** Dropping an empty list by swap-with-last keeps a partition. */
  lemma RemoveEmptyPartition(sp: seq<seq<nat>>, n: nat, i: nat)
    requires i < |sp| && sp[i] == [] && Partition(sp, n)
    ensures Partition(RemoveAt(sp, i), n)
  {
    var w := RemoveAt(sp, i);
    var last := |sp| - 1;
    // position k of `w` holds the list at position `From(k)` of `sp`
    assert forall k :: 0 <= k < |w| ==> w[k] == sp[if k == i then last else k];
    forall m | 0 <= m < n ensures Listed(w, m) {
      assert Listed(sp, m);
      var q :| 0 <= q < |sp| && m in sp[q];
      if q == last { assert m in w[i]; } else { assert m in w[q]; }
    }
    forall k1, k2, m | 0 <= k1 < |w| && 0 <= k2 < |w| && m in w[k1] && m in w[k2] ensures k1 == k2 {
      var f1 := if k1 == i then last else k1;
      var f2 := if k2 == i then last else k2;
      assert m in sp[f1] && m in sp[f2];
    }
  }

  lemma {:induction false} PrunePartition(sp: seq<seq<nat>>, reps: seq<Genome>, i: int, n: nat)
    requires |sp| == |reps| && -1 <= i < |sp| && Partition(sp, n)
    ensures Partition(Prune(sp, reps, i).0, n)
    decreases i + 1
  {
    if i >= 0 {
      if sp[i] == [] {
        RemoveEmptyPartition(sp, n, i);
        PrunePartition(RemoveAt(sp, i), RemoveAt(reps, i), i - 1, n);
      } else {
        PrunePartition(sp, reps, i - 1, n);
      }
    }
  }

  /** The assignment from empty species, as `generate_species` starts it. */
  function Assigned(gs: seq<Genome>, reps: seq<Genome>, t: real): (r: (seq<seq<nat>>, seq<Genome>))
    ensures |r.0| == |r.1|
  {
    Assign(gs, Empties(|reps|), reps, t, |gs|)
  }

  lemma AssignedPartition(gs: seq<Genome>, reps: seq<Genome>, t: real)
    ensures Partition(Assigned(gs, reps, t).0, |gs|)
    ensures |reps| <= |Assigned(gs, reps, t).1| && Assigned(gs, reps, t).1[..|reps|] == reps
  {
    EmptyPartition(|reps|);
    AssignPartition(gs, Empties(|reps|), reps, t, |gs|);
  }

  /**
   * What `generate_species` leaves, from genomes `gs`, the old representatives `reps`
   * and the threshold `t`: each genome index is in exactly one species, the lists are
   * ascending, no species is empty, and the species are exactly the non-empty
   * species of the assignment, each with its own representative.
   */
  lemma SpeciesOutcome(gs: seq<Genome>, reps: seq<Genome>, t: real)
    ensures var a := Assigned(gs, reps, t);
      var r := Prune(a.0, a.1, |a.0| - 1);
      Partition(r.0, |gs|) && |r.0| == |r.1| &&
      NoneEmpty(r.0) &&
      multiset(Zip(r.0, r.1)) == multiset(NonEmpty(Zip(a.0, a.1)))
  {
    var a := Assigned(gs, reps, t);
    var last := |a.0| - 1;
    var r := Prune(a.0, a.1, last);
    AssignedPartition(gs, reps, t);
    PrunePartition(a.0, a.1, last, |gs|);
    assert Partition(r.0, |gs|);
    PruneNonEmpty(a.0, a.1, last);
    assert NoneEmpty(r.0);
    PruneKeepsPairs(a.0, a.1, last);
    var z := Zip(a.0, a.1);
    assert z[..last + 1] == z && z[last + 1..] == [];
    assert multiset(Zip(r.0, r.1)) == multiset(NonEmpty(z));
  }
}
