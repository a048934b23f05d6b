/**
 * Assembly of the joint fitting system of `StackFitter`: which extensions
 * of the stack file are fitted, how degenerate exposures are popped from
 * the extension list, how the per-exposure vectors are concatenated, the
 * slice table giving each exposure's range in the joint vector, and the
 * 0/1 background indicator matrix.
 */
module Assembly {
  import opened Numerics

  // ---------------------------------------------------------------------
  // Extension selection
  // ---------------------------------------------------------------------

  /** An optional filter list (`pas`, `extensions`): `None` lets everything through. */
  predicate Allowed(e: string, filter: Option<seq<string>>)
  {
    filter.None? || e in filter.value
  }

  /** The extension name of one position angle of a grism, `"{grism},{pa}"`. */
  function ExtName(g: string, pa: string): string
  {
    g + "," + pa
  }

  /** The per-position-angle extensions of one grism that pass both filters, in header order. */
  function PaExtensions(g: string, pasG: seq<string>, pas: Option<seq<string>>,
                        extensions: Option<seq<string>>): seq<string>
    decreases |pasG|
  {
    if |pasG| == 0 then []
    else
      var pa := pasG[|pasG| - 1];
      PaExtensions(g, pasG[..|pasG| - 1], pas, extensions)
        + (if Allowed(pa, pas) && Allowed(ExtName(g, pa), extensions) then [ExtName(g, pa)] else [])
  }

  /** The extensions one grism contributes: itself when fitting stacks, else its position angles. */
  function GrismExtensions(g: string, pasG: seq<string>, fitStacks: bool, pas: Option<seq<string>>,
                           extensions: Option<seq<string>>): seq<string>
  {
    if fitStacks then (if Allowed(g, extensions) then [g] else [])
    else PaExtensions(g, pasG, pas, extensions)
  }

  /** All selected extensions, grism by grism in header order. */
  function Extensions(grisms: seq<string>, pasOf: seq<seq<string>>, fitStacks: bool,
                      pas: Option<seq<string>>, extensions: Option<seq<string>>): seq<string>
    requires |pasOf| == |grisms|
    decreases |grisms|
  {
    if |grisms| == 0 then []
    else
      var n := |grisms| - 1;
      Extensions(grisms[..n], pasOf[..n], fitStacks, pas, extensions)
        + GrismExtensions(grisms[n], pasOf[n], fitStacks, pas, extensions)
  }

  /**
   * The selection loop of `StackFitter.__init__`: for every grism of the
   * header, either the grism itself or each of its position angles, skipping
   * what `pas` and `extensions` leave out.
   */
  method SelectExtensions(grisms: seq<string>, pasOf: seq<seq<string>>, fitStacks: bool,
                          pas: Option<seq<string>>, extensions: Option<seq<string>>)
    returns (ext: seq<string>)
    requires |pasOf| == |grisms|
    ensures ext == Extensions(grisms, pasOf, fitStacks, pas, extensions)
  {
    ext := [];
    for i := 0 to |grisms|
      invariant ext == Extensions(grisms[..i], pasOf[..i], fitStacks, pas, extensions)
    {
      var g := grisms[i];
      if fitStacks {
        if extensions.None? || g in extensions.value {
          ext := ext + [g];
        }
      } else {
        ghost var before := ext;
        for j := 0 to |pasOf[i]|
          invariant ext == before + PaExtensions(g, pasOf[i][..j], pas, extensions)
        {
          var pa := pasOf[i][j];
          assert pasOf[i][..j + 1][..j] == pasOf[i][..j];
          if pas.None? || pa in pas.value {
            var e := g + "," + pa;
            if extensions.None? || e in extensions.value {
              ext := ext + [e];
            }
          }
        }
        assert pasOf[i][..|pasOf[i]|] == pasOf[i];
      }
      assert grisms[..i + 1][..i] == grisms[..i] && pasOf[..i + 1][..i] == pasOf[..i];
    }
    assert grisms[..|grisms|] == grisms && pasOf[..|pasOf|] == pasOf;
  }

  /** Fitting stacks selects exactly the header's grisms that the `extensions` filter allows. */
  lemma {:induction false} StackExtensionsExact(grisms: seq<string>, pasOf: seq<seq<string>>,
                                               pas: Option<seq<string>>, extensions: Option<seq<string>>, e: string)
    requires |pasOf| == |grisms|
    ensures e in Extensions(grisms, pasOf, true, pas, extensions) <==> e in grisms && Allowed(e, extensions)
    decreases |grisms|
  {
    if |grisms| > 0 {
      var n := |grisms| - 1;
      StackExtensionsExact(grisms[..n], pasOf[..n], pas, extensions, e);
      assert grisms == grisms[..n] + [grisms[n]];
    }
  }

  /** A position-angle extension is selected exactly when both filters let it through. */
  lemma {:induction false} PaExtensionsExact(g: string, pasG: seq<string>, pas: Option<seq<string>>,
                                            extensions: Option<seq<string>>, e: string)
    ensures e in PaExtensions(g, pasG, pas, extensions) <==>
      exists j :: 0 <= j < |pasG| && e == ExtName(g, pasG[j]) && Allowed(pasG[j], pas) && Allowed(e, extensions)
    decreases |pasG|
  {
    if |pasG| > 0 {
      var n := |pasG| - 1;
      PaExtensionsExact(g, pasG[..n], pas, extensions, e);
      if e in PaExtensions(g, pasG[..n], pas, extensions) {
        var j :| 0 <= j < n && e == ExtName(g, pasG[..n][j]) && Allowed(pasG[..n][j], pas) && Allowed(e, extensions);
        assert pasG[j] == pasG[..n][j];
      }
      if exists j :: 0 <= j < |pasG| && e == ExtName(g, pasG[j]) && Allowed(pasG[j], pas) && Allowed(e, extensions) {
        var j :| 0 <= j < |pasG| && e == ExtName(g, pasG[j]) && Allowed(pasG[j], pas) && Allowed(e, extensions);
        if j < n {
          assert pasG[..n][j] == pasG[j];
        }
      }
    }
  }

  /**
   * Fitting position angles selects exactly the `"{grism},{pa}"` names whose
   * position angle passes `pas` and whose name passes `extensions`.
   */
  lemma {:induction false} PaModeExtensionsExact(grisms: seq<string>, pasOf: seq<seq<string>>,
                                                pas: Option<seq<string>>, extensions: Option<seq<string>>, e: string)
    requires |pasOf| == |grisms|
    ensures e in Extensions(grisms, pasOf, false, pas, extensions) <==>
      exists i, j :: 0 <= i < |grisms| && 0 <= j < |pasOf[i]| && e == ExtName(grisms[i], pasOf[i][j])
        && Allowed(pasOf[i][j], pas) && Allowed(e, extensions)
    decreases |grisms|
  {
    if |grisms| > 0 {
      var n := |grisms| - 1;
      var gs, ps := grisms[..n], pasOf[..n];
      PaModeExtensionsExact(gs, ps, pas, extensions, e);
      PaExtensionsExact(grisms[n], pasOf[n], pas, extensions, e);
      if e in Extensions(gs, ps, false, pas, extensions) {
        var i, j :| 0 <= i < n && 0 <= j < |ps[i]| && e == ExtName(gs[i], ps[i][j])
          && Allowed(ps[i][j], pas) && Allowed(e, extensions);
        assert gs[i] == grisms[i] && ps[i] == pasOf[i];
      }
      if exists i, j :: (0 <= i < |grisms| && 0 <= j < |pasOf[i]| && e == ExtName(grisms[i], pasOf[i][j])
                         && Allowed(pasOf[i][j], pas) && Allowed(e, extensions)) {
        var i, j :| 0 <= i < |grisms| && 0 <= j < |pasOf[i]| && e == ExtName(grisms[i], pasOf[i][j])
          && Allowed(pasOf[i][j], pas) && Allowed(e, extensions);
        if i < n {
          assert gs[i] == grisms[i] && ps[i] == pasOf[i];
        }
      }
    }
  }

  // ---------------------------------------------------------------------
  // Popping degenerate exposures
  // ---------------------------------------------------------------------

  /** The list `pop` of `__init__`: the indices whose exposure is degenerate, ascending. */
  function Dropped(ok: seq<bool>): (pop: seq<nat>)
    ensures forall m :: 0 <= m < |pop| ==> pop[m] < |ok| && !ok[pop[m]]
    decreases |ok|
  {
    if |ok| == 0 then []
    else Dropped(ok[..|ok| - 1]) + (if ok[|ok| - 1] then [] else [|ok| - 1])
  }

  /** `pop` is strictly increasing and lists every degenerate index. */
  lemma {:induction false} DroppedExact(ok: seq<bool>)
    ensures forall a, b :: 0 <= a < b < |Dropped(ok)| ==> Dropped(ok)[a] < Dropped(ok)[b]
    ensures forall i :: 0 <= i < |ok| && !ok[i] ==> i in Dropped(ok)
    ensures |Dropped(ok)| + Count(ok) == |ok|
  {
    DroppedIncreasing(ok);
    DroppedComplete(ok);
    DroppedCount(ok);
  }

  lemma {:induction false} DroppedIncreasing(ok: seq<bool>)
    ensures forall a, b :: 0 <= a < b < |Dropped(ok)| ==> Dropped(ok)[a] < Dropped(ok)[b]
    decreases |ok|
  {
    if |ok| > 0 {
      var n := |ok| - 1;
      var prev := ok[..n];
      DroppedIncreasing(prev);
      var d0, d := Dropped(prev), Dropped(ok);
      assert d == d0 + (if ok[n] then [] else [n]);
    }
  }

  lemma {:induction false} DroppedComplete(ok: seq<bool>)
    ensures forall i :: 0 <= i < |ok| && !ok[i] ==> i in Dropped(ok)
    decreases |ok|
  {
    if |ok| > 0 {
      var n := |ok| - 1;
      var prev := ok[..n];
      DroppedComplete(prev);
      var d0, d := Dropped(prev), Dropped(ok);
      assert d == d0 + (if ok[n] then [] else [n]);
      forall i | 0 <= i < |ok| && !ok[i] ensures i in d {
        if i < n {
          assert prev[i] == ok[i];
        }
      }
    }
  }

  lemma {:induction false} DroppedCount(ok: seq<bool>)
    ensures |Dropped(ok)| + Count(ok) == |ok|
    decreases |ok|
  {
    if |ok| > 0 {
      var n := |ok| - 1;
      DroppedCount(ok[..n]);
    }
  }

  /** Boolean indexing from a dropped entry `q` up to `b`, with everything in between kept. */
  lemma {:induction false} CompressFromDropped<T>(ext: seq<T>, ok: seq<bool>, q: nat, b: nat)
    requires |ok| == |ext| && q < b <= |ext| && !ok[q]
    requires forall i :: q < i < b ==> ok[i]
    ensures Compress(ext[q..], ok[q..]) == ext[q + 1..b] + Compress(ext[b..], ok[b..])
  {
    var mid, kmid := ext[q + 1..b], ok[q + 1..b];
    var tail, ktail := ext[b..], ok[b..];
    CompressAllTrue(mid, kmid);
    CompressAppend(mid, kmid, tail, ktail);
    assert ext[q + 1..] == mid + tail && ok[q + 1..] == kmid + ktail;
    CompressAppend([ext[q]], [ok[q]], ext[q + 1..], ok[q + 1..]);
    assert ext[q..] == [ext[q]] + ext[q + 1..] && ok[q..] == [ok[q]] + ok[q + 1..];
  }

  /** One `ext.pop(q)` of a degenerate index below every index still pending removal. */
  lemma {:induction false} PopOne<T>(ext: seq<T>, ok: seq<bool>, q: nat, b: nat, kept: seq<T>)
    requires |ok| == |ext| && q < b <= |ext| && !ok[q]
    requires forall i :: q < i < b ==> ok[i]
    requires kept == ext[..b] + Compress(ext[b..], ok[b..])
    ensures q < |kept| && kept[..q] + kept[q + 1..] == ext[..q] + Compress(ext[q..], ok[q..])
  {
    CompressFromDropped(ext, ok, q, b);
    var rest := Compress(ext[b..], ok[b..]);
    assert kept == ext[..q] + [ext[q]] + (ext[q + 1..b] + rest);
  }

  /** Once no index is left to pop, what remains is the boolean-indexed list. */
  lemma {:induction false} PopDone<T>(ext: seq<T>, ok: seq<bool>, b: nat)
    requires |ok| == |ext| && b <= |ext|
    requires forall i :: 0 <= i < b ==> ok[i]
    ensures ext[..b] + Compress(ext[b..], ok[b..]) == Compress(ext, ok)
  {
    var head, khead, tail, ktail := ext[..b], ok[..b], ext[b..], ok[b..];
    assert ext == head + tail && ok == khead + ktail;
    CompressAllTrue(head, khead);
    CompressAppend(head, khead, tail, ktail);
  }

  /** Between two consecutive entries of `pop` (or before the first, or after the last) every exposure is kept. */
  lemma {:induction false} DroppedGap(ok: seq<bool>, k: int)
    requires -1 <= k < |Dropped(ok)|
    ensures var pop := Dropped(ok);
      var lo := if k < 0 then -1 else pop[k];
      var hi := if k + 1 == |pop| then |ok| else pop[k + 1];
      forall i :: 0 <= i && lo < i < hi ==> ok[i]
  {
    var pop := Dropped(ok);
    DroppedExact(ok);
    var lo := if k < 0 then -1 else pop[k];
    var hi := if k + 1 == |pop| then |ok| else pop[k + 1];
  }

  /**
   * `for i in pop[::-1]: Next -= 1; ext.pop(i)`. Popping in reverse order
   * never shifts an index still to be popped, so what remains is exactly
   * the extensions of the non-degenerate exposures, in their order.
   */
  method PopDegenerate<T>(ext: seq<T>, ok: seq<bool>, pop: seq<nat>, next0: int) returns (kept: seq<T>, next: int)
    requires |ok| == |ext| && pop == Dropped(ok)
    ensures kept == Compress(ext, ok)
    ensures next == next0 - |pop| && |kept| == Count(ok)
  {
    DroppedExact(ok);
    kept, next := ext, next0;
    var k := |pop|;
    while k > 0
      invariant 0 <= k <= |pop|
      invariant var b := if k == |pop| then |ext| else pop[k];
        b <= |ext| && kept == ext[..b] + Compress(ext[b..], ok[b..])
      invariant next == next0 - (|pop| - k)
    {
      ghost var b := if k == |pop| then |ext| else pop[k];
      k := k - 1;
      var q := pop[k];
      DroppedGap(ok, k);
      PopOne(ext, ok, q, b, kept);
      kept := kept[..q] + kept[q + 1..];
      next := next - 1;
    }
    var b := if |pop| == 0 then |ext| else pop[0];
    DroppedGap(ok, -1);
    PopDone(ext, ok, b);
  }

  // ---------------------------------------------------------------------
  // Joint vectors and the slice table
  // ---------------------------------------------------------------------

  /** `np.hstack(parts)`. */
  function Concat<T>(parts: seq<seq<T>>): seq<T>
    decreases |parts|
  {
    if |parts| == 0 then [] else Concat(parts[..|parts| - 1]) + parts[|parts| - 1]
  }

  /** Sum of sizes (`np.sum([E.size for E in self.E])`). */
  function Total(sizes: seq<nat>): nat
    decreases |sizes|
  {
    if |sizes| == 0 then 0 else Total(sizes[..|sizes| - 1]) + sizes[|sizes| - 1]
  }

  /** The sizes of the parts. */
  function Lengths<T>(parts: seq<seq<T>>): (r: seq<nat>)
    ensures |r| == |parts| && forall i :: 0 <= i < |parts| ==> r[i] == |parts[i]|
  {
    seq(|parts|, i requires 0 <= i < |parts| => |parts[i]|)
  }

  /** The joint vector is as long as all parts together. */
  lemma {:induction false} ConcatLength<T>(parts: seq<seq<T>>)
    ensures |Concat(parts)| == Total(Lengths(parts))
    decreases |parts|
  {
    if |parts| > 0 {
      var n := |parts| - 1;
      ConcatLength(parts[..n]);
      assert Lengths(parts)[..n] == Lengths(parts[..n]);
    }
  }

  /** Prefix totals grow with the prefix. */
  lemma {:induction false} TotalPrefixMonotone(sizes: seq<nat>, i: nat, j: nat)
    requires i <= j <= |sizes|
    ensures Total(sizes[..i]) <= Total(sizes[..j])
    decreases j - i
  {
    if i < j {
      TotalPrefixMonotone(sizes, i, j - 1);
      assert sizes[..j][..j - 1] == sizes[..j - 1];
    }
  }

  /** One more part: the prefix of `j + 1` parts concatenates to that of `j` parts followed by part `j`. */
  lemma {:induction false} ConcatStep<T>(parts: seq<seq<T>>, j: nat)
    requires j < |parts|
    ensures Concat(parts[..j + 1]) == Concat(parts[..j]) + parts[j]
  {
    assert parts[..j + 1][..j] == parts[..j];
  }

  /** One more size: the total of `j + 1` sizes adds size `j`, and stays within the whole total. */
  lemma {:induction false} TotalStep(sizes: seq<nat>, j: nat)
    requires j < |sizes|
    ensures Total(sizes[..j + 1]) == Total(sizes[..j]) + sizes[j] <= Total(sizes)
  {
    assert sizes[..j + 1][..j] == sizes[..j];
    TotalPrefixMonotone(sizes, j + 1, |sizes|);
    assert sizes[..|sizes|] == sizes;
  }

  /**
   * Entry `t` of part `i` sits at offset `Total(sizes[..i]) + t` of the
   * joint vector: this is why slice `i` selects exposure `i`'s pixels.
   */
  lemma {:induction false} ConcatAt<T>(parts: seq<seq<T>>, i: nat, t: nat)
    requires i < |parts| && t < |parts[i]|
    ensures Total(Lengths(parts)[..i]) + t < |Concat(parts)|
    ensures Concat(parts)[Total(Lengths(parts)[..i]) + t] == parts[i][t]
    decreases |parts|
  {
    var n := |parts| - 1;
    ConcatLength(parts[..n]);
    assert Lengths(parts)[..n] == Lengths(parts[..n]);
    assert Lengths(parts)[..n + 1] == Lengths(parts);
    if i < n {
      ConcatAt(parts[..n], i, t);
      assert Lengths(parts[..n])[..i] == Lengths(parts)[..i];
    } else {
      assert Lengths(parts)[..i] == Lengths(parts[..n]);
    }
  }

  /** `ConcatAt` for parts of the given sizes. */
  lemma {:induction false} ConcatAtSized<T>(parts: seq<seq<T>>, sizes: seq<nat>, i: nat, t: nat)
    requires |parts| == |sizes| && (forall k :: 0 <= k < |parts| ==> |parts[k]| == sizes[k])
    requires i < |parts| && t < sizes[i]
    ensures Total(sizes[..i]) + t < |Concat(parts)| == Total(sizes)
    ensures Concat(parts)[Total(sizes[..i]) + t] == parts[i][t]
  {
    ConcatAt(parts, i, t);
    ConcatLength(parts);
    assert Lengths(parts) == sizes;
  }

  /** A Python `slice(start, stop)` into the joint vector. */
  datatype Slice = Slice(start: nat, stop: nat)

  /**
   * The slice table is a contiguous partition of `[0, Total(sizes))`: the
   * first slice starts at 0, each starts where the previous one stops, each
   * is as long as its exposure, and the last stops at the total.
   */
  predicate Partition(slices: seq<Slice>, sizes: seq<nat>)
  {
    |slices| == |sizes|
    && (forall i :: 0 <= i < |sizes| ==> slices[i].stop == slices[i].start + sizes[i])
    && (|sizes| > 0 ==> slices[0].start == 0)
    && (forall i :: 0 < i < |sizes| ==> slices[i].start == slices[i - 1].stop)
    && (|sizes| > 0 ==> slices[|sizes| - 1].stop == Total(sizes))
  }

  /** `_get_slices`: a loop with a running offset. */
  method GetSlices(sizes: seq<nat>) returns (slices: seq<Slice>)
    ensures Partition(slices, sizes)
  {
    var x := 0;
    slices := [];
    for i := 0 to |sizes|
      invariant |slices| == i && x == Total(sizes[..i])
      invariant forall k :: 0 <= k < i ==> slices[k].stop == slices[k].start + sizes[k]
      invariant i > 0 ==> slices[0].start == 0 && slices[i - 1].stop == x
      invariant forall k :: 0 < k < i ==> slices[k].start == slices[k - 1].stop
    {
      assert sizes[..i + 1][..i] == sizes[..i];
      slices := slices + [Slice(x + 0, x + sizes[i])];
      x := x + sizes[i];
    }
    assert sizes[..|sizes|] == sizes;
  }

  /** In a partition, slice `i` starts at the total size of the exposures before it. */
  lemma {:induction false} PartitionStart(slices: seq<Slice>, sizes: seq<nat>, i: nat)
    requires Partition(slices, sizes) && i < |sizes|
    ensures slices[i].start == Total(sizes[..i])
    ensures slices[i].stop == Total(sizes[..i + 1])
  {
    if i > 0 {
      PartitionStart(slices, sizes, i - 1);
    }
    assert sizes[..i + 1][..i] == sizes[..i];
  }

  /** Every joint index lies in exactly one slice of a partition. */
  lemma {:induction false} PartitionOwner(slices: seq<Slice>, sizes: seq<nat>, k: nat)
    requires Partition(slices, sizes) && k < Total(sizes)
    ensures exists i :: 0 <= i < |slices| && slices[i].start <= k < slices[i].stop
    ensures forall i, i' :: (0 <= i < |slices| && 0 <= i' < |slices| && slices[i].start <= k < slices[i].stop
                             && slices[i'].start <= k < slices[i'].stop) ==> i == i'
  {
    // the slices are ordered: an earlier slice stops no later than a later one starts
    forall i, i' | 0 <= i < i' < |slices| ensures slices[i].stop <= slices[i'].start {
      PartitionStart(slices, sizes, i);
      PartitionStart(slices, sizes, i');
      TotalPrefixMonotone(sizes, i + 1, i');
    }
    var i := OwnerSearch(slices, sizes, k, |slices|);
  }

  /** The last slice among the first `n` that starts at or before `k` contains it. */
  lemma {:induction false} OwnerSearch(slices: seq<Slice>, sizes: seq<nat>, k: nat, n: nat) returns (i: nat)
    requires Partition(slices, sizes) && 0 < n <= |slices| && k < slices[n - 1].stop
    ensures i < n && slices[i].start <= k < slices[i].stop
    decreases n
  {
    if slices[n - 1].start <= k {
      i := n - 1;
    } else {
      i := OwnerSearch(slices, sizes, k, n - 1);
    }
  }

  // ---------------------------------------------------------------------
  // Background indicator matrix
  // ---------------------------------------------------------------------

  /** Entry of `Abg` in the row of slice `s`, column `k`. */
  function Indicator(s: Slice, k: nat): real
  {
    if s.start <= k < s.stop then 1.0 else 0.0
  }

  /** `_init_background`: zeros, then ones over each exposure's slice, row by row. */
  method InitBackground(slices: seq<Slice>, ndata: nat) returns (abg: array2<real>)
    ensures fresh(abg) && abg.Length0 == |slices| && abg.Length1 == ndata
    ensures forall i, k :: 0 <= i < |slices| && 0 <= k < ndata ==> abg[i, k] == Indicator(slices[i], k)
  {
    abg := new real[|slices|, ndata]((i, k) => 0.0);
    for i := 0 to |slices|
      invariant forall i', k :: 0 <= i' < i && 0 <= k < ndata ==> abg[i', k] == Indicator(slices[i'], k)
      invariant forall i', k :: i <= i' < |slices| && 0 <= k < ndata ==> abg[i', k] == 0.0
    {
      // numpy clips the slice to the array
      var hi := if slices[i].stop < ndata then slices[i].stop else ndata;
      var lo := if slices[i].start < hi then slices[i].start else hi;
      for k := lo to hi
        invariant forall i', k' :: 0 <= i' < i && 0 <= k' < ndata ==> abg[i', k'] == Indicator(slices[i'], k')
        invariant forall i', k' :: i < i' < |slices| && 0 <= k' < ndata ==> abg[i', k'] == 0.0
        invariant forall k' :: 0 <= k' < ndata ==> abg[i, k'] == if lo <= k' < k then 1.0 else 0.0
      {
        abg[i, k] := 1.0;
      }
    }
  }

  /**
   * Each spectroscopic column of the background matrix holds exactly one 1,
   * in the row of the exposure that owns it, and zeros elsewhere.
   */
  lemma {:induction false} BackgroundColumn(slices: seq<Slice>, sizes: seq<nat>, k: nat)
    requires Partition(slices, sizes) && k < Total(sizes)
    ensures exists i :: (0 <= i < |slices| && Indicator(slices[i], k) == 1.0
                         && forall i' :: 0 <= i' < |slices| && i' != i ==> Indicator(slices[i'], k) == 0.0)
  {
    PartitionOwner(slices, sizes, k);
  }
}
