/** Version comparison of the dependency inventory (app/admin/dependencies_service.py). */
module Versions {
  import opened PyText

  // A parsed version: epoch, release components, and the rank of its pre / post / dev / local part.
  datatype Version = Version(epoch: nat, release: seq<nat>, suffix: int)

  datatype Status = Unknown | UpToDate | OutdatedMajor | OutdatedMinor | OutdatedPatch

  // ----- The library's order: trailing zeros of the release are ignored

  function StripZeros(r: seq<nat>): seq<nat> {
    if r == [] then []
    else
      var rest := StripZeros(r[1..]);
      if rest == [] && r[0] == 0 then [] else [r[0]] + rest
  }

  predicate LexLess(a: seq<nat>, b: seq<nat>) {
    if b == [] then false
    else if a == [] then true
    else a[0] < b[0] || (a[0] == b[0] && LexLess(a[1..], b[1..]))
  }

  predicate Less(a: Version, b: Version) {
    var ra, rb := StripZeros(a.release), StripZeros(b.release);
    || a.epoch < b.epoch
    || (a.epoch == b.epoch && (LexLess(ra, rb) || (ra == rb && a.suffix < b.suffix)))
  }

  // ----- The classification

  function ComputeStatus(current: Option<Version>, latest: Option<Version>): Status {
    if current.None? || latest.None? then Unknown
    else if !Less(current.value, latest.value) then UpToDate
    else
      var c, l := current.value.release + [0, 0, 0], latest.value.release + [0, 0, 0];
      if l[0] > c[0] then OutdatedMajor
      else if l[1] > c[1] then OutdatedMinor
      else OutdatedPatch
  }

  // ----- Zero-padded components

  function At(r: seq<nat>, i: nat): nat { if i < |r| then r[i] else 0 }

  // The first component in which two releases differ.
  function FirstDiff(a: seq<nat>, b: seq<nat>): Option<nat>
    decreases |a| + |b|
  {
    if a == [] && b == [] then None
    else if At(a, 0) != At(b, 0) then Some(0)
    else
      match FirstDiff(Tail(a), Tail(b))
      case Some(i) => Some(i + 1)
      case None => None
  }

  function Tail(r: seq<nat>): seq<nat> { if r == [] then [] else r[1..] }

  // What the first differing component says about the update.
  function Classify(diff: Option<nat>): Status {
    if diff == Some(0) then OutdatedMajor else if diff == Some(1) then OutdatedMinor else OutdatedPatch
  }

  lemma {:induction false} FirstDiffMeaning(a: seq<nat>, b: seq<nat>)
    ensures match FirstDiff(a, b)
      case None => forall i: nat :: At(a, i) == At(b, i)
      case Some(d) => At(a, d) != At(b, d) && forall i: nat :: i < d ==> At(a, i) == At(b, i)
    decreases |a| + |b|
  {
    if !(a == [] && b == []) && At(a, 0) == At(b, 0) {
      FirstDiffMeaning(Tail(a), Tail(b));
      assert forall i: nat :: At(Tail(a), i) == At(a, i + 1) && At(Tail(b), i) == At(b, i + 1);
      forall i: nat | i > 0 && (FirstDiff(Tail(a), Tail(b)).None? || i - 1 < FirstDiff(Tail(a), Tail(b)).value)
        ensures At(a, i) == At(b, i)
      {
        assert At(Tail(a), i - 1) == At(Tail(b), i - 1);
      }
    }
  }

  lemma StripTail(r: seq<nat>)
    ensures StripZeros(r) == [] ==> At(r, 0) == 0 && StripZeros(Tail(r)) == []
    ensures StripZeros(r) != [] ==> StripZeros(r) == [At(r, 0)] + StripZeros(Tail(r))
  {}

  // Ignoring trailing zeros is comparing the zero-padded components one by one.
  lemma {:induction false} PaddedOrder(a: seq<nat>, b: seq<nat>)
    ensures StripZeros(a) == StripZeros(b) <==> FirstDiff(a, b).None?
    ensures LexLess(StripZeros(a), StripZeros(b))
       <==> FirstDiff(a, b).Some? && At(a, FirstDiff(a, b).value) < At(b, FirstDiff(a, b).value)
    decreases |a| + |b|
  {
    if !(a == [] && b == []) {
      StripTail(a);
      StripTail(b);
      PaddedOrder(Tail(a), Tail(b));
      var sa, sb := StripZeros(a), StripZeros(b);
      if sa != [] {
        assert sa[1..] == StripZeros(Tail(a));
      }
      if sb != [] {
        assert sb[1..] == StripZeros(Tail(b));
      }
      assert forall i: nat :: At(Tail(a), i) == At(a, i + 1) && At(Tail(b), i) == At(b, i + 1);
    }
  }

  // Main result: a version of the same epoch that is not newer is up to date; a newer one is major, minor
  // or patch exactly by the first differing zero-padded component (patch when only the suffix differs).
  lemma StatusIsFirstDifference(current: Version, latest: Version)
    requires current.epoch == latest.epoch
    ensures var status := ComputeStatus(Some(current), Some(latest));
      var diff := FirstDiff(current.release, latest.release);
      && (status == UpToDate <==>
           match diff {
             case Some(d) => At(latest.release, d) < At(current.release, d)
             case None => latest.suffix <= current.suffix
           })
      && (status != UpToDate ==> status == Classify(diff))
  {
    PaddedOrder(current.release, latest.release);
    FirstDiffMeaning(current.release, latest.release);
    PaddedAt(current.release);
    PaddedAt(latest.release);
  }

  lemma PaddedAt(r: seq<nat>)
    ensures (r + [0, 0, 0])[0] == At(r, 0) && (r + [0, 0, 0])[1] == At(r, 1)
  {}

  // A status is unknown exactly when one of the two versions cannot be read.
  lemma UnknownExactly(current: Option<Version>, latest: Option<Version>)
    ensures ComputeStatus(current, latest) == Unknown <==> current.None? || latest.None?
  {}

  // Across epochs the classification follows the first differing component exactly when that component
  // is past the second or has grown.
  lemma StatusAcrossEpochs(current: Version, latest: Version)
    requires current.epoch < latest.epoch
    ensures var diff := FirstDiff(current.release, latest.release);
      var follows := ComputeStatus(Some(current), Some(latest)) == Classify(diff);
      follows <==> diff.None? || diff.value >= 2 || At(current.release, diff.value) < At(latest.release, diff.value)
  {
    FirstDiffMeaning(current.release, latest.release);
    PaddedAt(current.release);
    PaddedAt(latest.release);
  }

  // A newer epoch with a smaller major number is reported as a patch.
  lemma EpochMisreported()
    ensures var current, latest := Version(0, [2, 0], 0), Version(1, [1, 0], 0);
      Less(current, latest) && FirstDiff(current.release, latest.release) == Some(0)
      && ComputeStatus(Some(current), Some(latest)) == OutdatedPatch
  {}
}
