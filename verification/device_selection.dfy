/** Device scoring (`rateDeviceSuitability`) and device selection
    (`pickPhysicalDevice`). The scored candidates live in a
    `std::multimap<int, VkPhysicalDevice>`, modelled as a sequence kept in
    ascending score order where a new entry goes after every entry with an
    equal score, which is where `multimap::insert` places it. */
module DeviceSelection {
  import opened VulkanTypes
  import opened QueueFamilies

  /** The bonus a discrete GPU earns. */
  const DISCRETE_GPU_SCORE: int := 1000

  /** `rateDeviceSuitability`: a device without geometry-shader support
      scores 0 whatever its type; otherwise a discrete GPU scores 1000 and
      every other type 0. */
  function RateDeviceSuitability(d: PhysicalDevice): (score: int)
    ensures !d.geometryShader ==> score == 0
    ensures d.geometryShader ==> (score == DISCRETE_GPU_SCORE <==> d.deviceType == DiscreteGpu)
    ensures score == 0 || score == DISCRETE_GPU_SCORE
  {
    var score := if d.deviceType == DiscreteGpu then DISCRETE_GPU_SCORE else 0;
    if !d.geometryShader then 0 else score
  }

  /** The score of every device, in enumeration order. */
  function Scores(ds: seq<PhysicalDevice>): (scores: seq<int>)
    ensures |scores| == |ds|
    ensures forall i :: 0 <= i < |ds| ==> scores[i] == RateDeviceSuitability(ds[i])
  {
    seq(|ds|, i requires 0 <= i < |ds| => RateDeviceSuitability(ds[i]))
  }

  /** One `(score, VkPhysicalDevice)` entry of the candidate multimap. The
      handle of a device is its position in the enumeration. */
  datatype Candidate = Candidate(score: int, handle: nat)

  /** The entries in the order the scoring loop inserts them: enumeration order. */
  function ScoredInOrder(scores: seq<int>): (r: seq<Candidate>)
    ensures |r| == |scores|
    ensures forall i :: 0 <= i < |scores| ==> r[i] == Candidate(scores[i], i)
  {
    if |scores| == 0 then []
    else ScoredInOrder(scores[..|scores| - 1]) + [Candidate(scores[|scores| - 1], |scores| - 1)]
  }

  ghost predicate SortedByScore(m: seq<Candidate>)
  {
    forall i, j :: 0 <= i < j < |m| ==> m[i].score <= m[j].score
  }

  /** The entries of `m` with score `s`, in the order they appear in `m`:
      the equal range of key `s`. */
  function WithScore(m: seq<Candidate>, s: int): seq<Candidate>
  {
    if |m| == 0 then []
    else (if m[0].score == s then [m[0]] else []) + WithScore(m[1..], s)
  }

  /** `multimap::insert`: the new entry goes after every entry whose score is
      not greater than its own. */
  function InsertCandidate(m: seq<Candidate>, c: Candidate): (r: seq<Candidate>)
    ensures |r| == |m| + 1
  {
    if |m| == 0 then [c]
    else if c.score < m[0].score then [c] + m
    else [m[0]] + InsertCandidate(m[1..], c)
  }

  /** Inserting adds exactly the new entry and loses none. */
  lemma {:induction false} InsertAddsEntry(m: seq<Candidate>, c: Candidate)
    ensures multiset(InsertCandidate(m, c)) == multiset(m) + multiset{c}
    decreases |m|
  {
    if |m| > 0 && c.score >= m[0].score {
      InsertAddsEntry(m[1..], c);
      assert m == [m[0]] + m[1..];
    }
  }

  /** Inserting keeps the multimap ordered by score. */
  lemma {:induction false} InsertKeepsSorted(m: seq<Candidate>, c: Candidate)
    requires SortedByScore(m)
    ensures SortedByScore(InsertCandidate(m, c))
    decreases |m|
  {
    if |m| == 0 {
    } else if c.score < m[0].score {
      assert forall i :: 0 <= i < |m| ==> c.score <= m[i].score by {
        assert forall i :: 0 <= i < |m| ==> m[0].score <= m[i].score;
      }
      SortedCons(c, m);
    } else {
      var tail := m[1..];
      var rest := InsertCandidate(tail, c);
      assert SortedByScore(tail);
      InsertKeepsSorted(tail, c);
      forall i | 0 <= i < |rest|
        ensures m[0].score <= rest[i].score
      {
        InsertedAreAtLeast(m[0], tail, c, i);
      }
      SortedCons(m[0], rest);
    }
  }

  /** An entry no greater than any entry of a sorted multimap can head it. */
  lemma SortedCons(h: Candidate, r: seq<Candidate>)
    requires SortedByScore(r)
    requires forall i :: 0 <= i < |r| ==> h.score <= r[i].score
    ensures SortedByScore([h] + r)
  {
    var hr := [h] + r;
    forall i, j | 0 <= i < j < |hr|
      ensures hr[i].score <= hr[j].score
    {
      assert hr[j] == r[j - 1];
      if i > 0 {
        assert hr[i] == r[i - 1];
      }
    }
  }

  /** Every entry of the tail with the new entry inserted scores at least
      as high as the head, when the new entry does. */
  lemma InsertedAreAtLeast(head: Candidate, tail: seq<Candidate>, c: Candidate, i: nat)
    requires forall k :: 0 <= k < |tail| ==> head.score <= tail[k].score
    requires head.score <= c.score
    requires i < |InsertCandidate(tail, c)|
    ensures head.score <= InsertCandidate(tail, c)[i].score
  {
    var x := InsertCandidate(tail, c)[i];
    InsertAddsEntry(tail, c);
    assert x in multiset(InsertCandidate(tail, c));
    if x != c {
      assert x in multiset(tail);
    }
  }

  /** The candidate multimap after the scoring loop of `pickPhysicalDevice`
      has inserted every device in enumeration order. It is ordered by
      ascending score and holds each enumerated device exactly once. */
  function BuildCandidates(scores: seq<int>): (r: seq<Candidate>)
    ensures SortedByScore(r)
    ensures multiset(r) == multiset(ScoredInOrder(scores))
    decreases |scores|
  {
    if |scores| == 0 then []
    else
      var init := scores[..|scores| - 1];
      var last := Candidate(scores[|scores| - 1], |scores| - 1);
      assert ScoredInOrder(scores) == ScoredInOrder(init) + [last];
      InsertKeepsSorted(BuildCandidates(init), last);
      InsertAddsEntry(BuildCandidates(init), last);
      InsertCandidate(BuildCandidates(init), last)
  }

  /** Every multimap entry pairs a device handle with that device's score. */
  lemma CandidatesAreScored(scores: seq<int>, j: nat)
    requires j < |BuildCandidates(scores)|
    ensures BuildCandidates(scores)[j].handle < |scores|
    ensures BuildCandidates(scores)[j].score == scores[BuildCandidates(scores)[j].handle]
  {
    var cands := BuildCandidates(scores);
    assert cands[j] in multiset(cands);
    assert cands[j] in ScoredInOrder(scores);
  }

  /** Every device handle has an entry in the multimap. */
  lemma EveryDeviceIsCandidate(scores: seq<int>, h: nat)
    requires h < |scores|
    ensures exists j :: 0 <= j < |BuildCandidates(scores)| && BuildCandidates(scores)[j].handle == h
  {
    var scored := ScoredInOrder(scores);
    assert scored[h] in multiset(scored);
    assert scored[h] in BuildCandidates(scores);
  }

  lemma {:induction false} WithScoreConcat(a: seq<Candidate>, b: seq<Candidate>, s: int)
    ensures WithScore(a + b, s) == WithScore(a, s) + WithScore(b, s)
    decreases |a|
  {
    if |a| == 0 {
      assert a + b == b;
    } else {
      var ab := a + b;
      var head := if a[0].score == s then [a[0]] else [];
      assert ab[0] == a[0];
      assert ab[1..] == a[1..] + b;
      WithScoreConcat(a[1..], b, s);
      assert WithScore(ab, s) == head + (WithScore(a[1..], s) + WithScore(b, s));
    }
  }

  lemma {:induction false} WithScoreAbove(m: seq<Candidate>, s: int)
    requires forall i :: 0 <= i < |m| ==> m[i].score > s
    ensures WithScore(m, s) == []
    decreases |m|
  {
    if |m| > 0 {
      WithScoreAbove(m[1..], s);
    }
  }

  lemma {:induction false} WithScoreHasScore(m: seq<Candidate>, s: int)
    ensures forall i :: 0 <= i < |WithScore(m, s)| ==> WithScore(m, s)[i].score == s
    decreases |m|
  {
    if |m| > 0 {
      WithScoreHasScore(m[1..], s);
    }
  }

  /** Inserting into a sorted multimap appends the new entry to the END of
      its key's equal range and leaves every other range alone. */
  lemma {:induction false} InsertKeepsRangeOrder(m: seq<Candidate>, c: Candidate, s: int)
    requires SortedByScore(m)
    ensures WithScore(InsertCandidate(m, c), s) ==
            WithScore(m, s) + (if c.score == s then [c] else [])
    decreases |m|
  {
    var added := if c.score == s then [c] else [];
    if |m| == 0 {
      assert [c][1..] == [];
    } else if c.score < m[0].score {
      assert ([c] + m)[1..] == m;
      if c.score == s {
        assert forall i :: 0 <= i < |m| ==> m[0].score <= m[i].score;
        WithScoreAbove(m, s);
      }
      assert WithScore([c] + m, s) == added + WithScore(m, s);
    } else {
      var tail := m[1..];
      var rest := InsertCandidate(tail, c);
      var head := if m[0].score == s then [m[0]] else [];
      assert ([m[0]] + rest)[1..] == rest;
      assert SortedByScore(tail);
      InsertKeepsRangeOrder(tail, c, s);
      assert WithScore([m[0]] + rest, s) == head + (WithScore(tail, s) + added);
      assert WithScore(m, s) == head + WithScore(tail, s);
    }
  }

  /** Ties keep enumeration order: for every score, the candidates holding it
      appear in the multimap in the order their devices were enumerated. */
  lemma {:induction false} CandidatesStable(scores: seq<int>, s: int)
    ensures WithScore(BuildCandidates(scores), s) == WithScore(ScoredInOrder(scores), s)
    decreases |scores|
  {
    if |scores| > 0 {
      var init := scores[..|scores| - 1];
      var last := Candidate(scores[|scores| - 1], |scores| - 1);
      var tail := if last.score == s then [last] else [];
      assert WithScore(BuildCandidates(scores), s) == WithScore(BuildCandidates(init), s) + tail by {
        InsertKeepsRangeOrder(BuildCandidates(init), last, s);
      }
      assert WithScore(ScoredInOrder(scores), s) == WithScore(ScoredInOrder(init), s) + tail by {
        assert ScoredInOrder(scores) == ScoredInOrder(init) + [last];
        WithScoreConcat(ScoredInOrder(init), [last], s);
        assert [last][1..] == [];
      }
      CandidatesStable(init, s);
    }
  }

  /** An entry lands between the entries whose score is not above its own
      and those whose score is. */
  lemma {:induction false} InsertBetween(lo: seq<Candidate>, hi: seq<Candidate>, c: Candidate)
    requires forall i :: 0 <= i < |lo| ==> lo[i].score <= c.score
    requires forall i :: 0 <= i < |hi| ==> hi[i].score > c.score
    ensures InsertCandidate(lo + hi, c) == lo + [c] + hi
    decreases |lo|
  {
    if |lo| == 0 {
      assert lo + hi == hi;
    } else {
      var m := lo + hi;
      assert m[0] == lo[0];
      assert m[1..] == lo[1..] + hi;
      InsertBetween(lo[1..], hi, c);
      assert [lo[0]] + (lo[1..] + [c] + hi) == lo + [c] + hi;
    }
  }

  /** When every score is 0 or 1000, the multimap holds every 0-scoring
      device in enumeration order, followed by every 1000-scoring device,
      again in enumeration order. */
  lemma {:induction false} CandidateOrder(scores: seq<int>)
    requires forall i :: 0 <= i < |scores| ==> scores[i] == 0 || scores[i] == DISCRETE_GPU_SCORE
    ensures BuildCandidates(scores) ==
            WithScore(ScoredInOrder(scores), 0) + WithScore(ScoredInOrder(scores), DISCRETE_GPU_SCORE)
    decreases |scores|
  {
    if |scores| > 0 {
      var init := scores[..|scores| - 1];
      var last := Candidate(scores[|scores| - 1], |scores| - 1);
      var before := ScoredInOrder(init);
      var lo := WithScore(before, 0);
      var hi := WithScore(before, DISCRETE_GPU_SCORE);
      CandidateOrder(init);
      assert BuildCandidates(scores) == InsertCandidate(lo + hi, last);
      var lo' := WithScore(ScoredInOrder(scores), 0);
      var hi' := WithScore(ScoredInOrder(scores), DISCRETE_GPU_SCORE);
      assert lo' == lo + WithScore([last], 0) && hi' == hi + WithScore([last], DISCRETE_GPU_SCORE) by {
        assert ScoredInOrder(scores) == before + [last];
        WithScoreConcat(before, [last], 0);
        WithScoreConcat(before, [last], DISCRETE_GPU_SCORE);
      }
      WithScoreHasScore(before, 0);
      WithScoreHasScore(before, DISCRETE_GPU_SCORE);
      InsertIntoRanges(lo, hi, last);
    }
  }

  /** Inserting a 0- or 1000-scoring entry into a multimap made of a
      0-scoring range followed by a 1000-scoring range extends its range. */
  lemma InsertIntoRanges(lo: seq<Candidate>, hi: seq<Candidate>, c: Candidate)
    requires forall i :: 0 <= i < |lo| ==> lo[i].score == 0
    requires forall i :: 0 <= i < |hi| ==> hi[i].score == DISCRETE_GPU_SCORE
    requires c.score == 0 || c.score == DISCRETE_GPU_SCORE
    ensures InsertCandidate(lo + hi, c) ==
            (lo + WithScore([c], 0)) + (hi + WithScore([c], DISCRETE_GPU_SCORE))
  {
    assert [c][1..] == [];
    assert WithScore([c], 0) == (if c.score == 0 then [c] else []);
    assert WithScore([c], DISCRETE_GPU_SCORE) == (if c.score == 0 then [] else [c]);
    if c.score == 0 {
      InsertBetween(lo, hi, c);
      assert hi + [] == hi;
    } else {
      var m := lo + hi;
      InsertAfterAll(m, c);
      assert lo + [] == lo;
    }
  }

  /** An entry whose score is not below any other goes last. */
  lemma {:induction false} InsertAfterAll(m: seq<Candidate>, c: Candidate)
    requires forall i :: 0 <= i < |m| ==> m[i].score <= c.score
    ensures InsertCandidate(m, c) == m + [c]
    decreases |m|
  {
    if |m| > 0 {
      InsertAfterAll(m[1..], c);
      assert m == [m[0]] + m[1..];
    }
  }

  /** Every multimap entry names one of the enumerated devices. */
  ghost predicate HandlesIn(cands: seq<Candidate>, ds: seq<PhysicalDevice>)
  {
    forall j :: 0 <= j < |cands| ==> cands[j].handle < |ds|
  }

  /** Candidate `k` is suitable and no candidate before it is. */
  ghost predicate FirstSuitableAt(ds: seq<PhysicalDevice>, cands: seq<Candidate>, k: nat)
    requires HandlesIn(cands, ds)
  {
    && k < |cands|
    && IsDeviceSuitable(ds[cands[k].handle])
    && forall j :: 0 <= j < k ==> !IsDeviceSuitable(ds[cands[j].handle])
  }

  /** The selection loop of `pickPhysicalDevice` from position `i` on: walk
      the candidates in multimap order and stop at the first suitable one. */
  function FindFirstSuitable(ds: seq<PhysicalDevice>, cands: seq<Candidate>, i: nat): (r: Option<nat>)
    requires HandlesIn(cands, ds)
    requires i <= |cands|
    requires forall j :: 0 <= j < i ==> !IsDeviceSuitable(ds[cands[j].handle])
    ensures r.Some? ==> FirstSuitableAt(ds, cands, r.value)
    ensures r.None? <==> forall j :: 0 <= j < |cands| ==> !IsDeviceSuitable(ds[cands[j].handle])
    decreases |cands| - i
  {
    if i == |cands| then None
    else if IsDeviceSuitable(ds[cands[i].handle]) then Some(i)
    else FindFirstSuitable(ds, cands, i + 1)
  }

  /** Some entry of `cands` names device `h`. */
  ghost predicate HasEntryFor(cands: seq<Candidate>, h: nat)
  {
    exists j :: 0 <= j < |cands| && cands[j].handle == h
  }

  /** The multimap of the enumerated devices: as many entries as devices,
      every handle in range and every device present, so exactly one entry
      per device. */
  function CandidatesOf(ds: seq<PhysicalDevice>): (cands: seq<Candidate>)
    ensures HandlesIn(cands, ds)
    ensures |cands| == |ds|
    ensures forall h :: 0 <= h < |ds| ==> HasEntryFor(cands, h)
  {
    var cands := BuildCandidates(Scores(ds));
    forall j | 0 <= j < |cands|
      ensures cands[j].handle < |ds|
    {
      CandidatesAreScored(Scores(ds), j);
    }
    forall h | 0 <= h < |ds|
      ensures HasEntryFor(cands, h)
    {
      EveryDeviceIsCandidate(Scores(ds), h);
    }
    assert |multiset(cands)| == |ds|;
    cands
  }

  /** `pickPhysicalDevice` as written. `deviceGroupCount` is what
      `vkEnumeratePhysicalDeviceGroups` reports, which `pickPhysicalDevice` uses as the
      device count: `vkEnumeratePhysicalDevices` then fills in only the first
      `deviceGroupCount` of the `devices` the driver exposes. The Vulkan API
      puts every device in exactly one non-empty group, hence the requires.
      Zero groups throw; otherwise the candidates are walked in ASCENDING
      score order and the handle of the first suitable one is picked. When
      none is suitable the handle stays null (`Ok(None)`): `pickPhysicalDevice` only
      logs. */
  function PickPhysicalDeviceAsWritten(deviceGroupCount: nat, devices: seq<PhysicalDevice>): (r: Result<Option<nat>>)
    requires deviceGroupCount <= |devices|
    requires deviceGroupCount == 0 <==> |devices| == 0
    ensures r.Err? <==> |devices| == 0
    ensures r.Err? ==> r.error == NoVulkanGpus
    ensures r.Ok? && r.value.Some? ==>
              && r.value.value < deviceGroupCount
              && IsDeviceSuitable(devices[r.value.value])
              && PickedAsWritten(devices[..deviceGroupCount], r.value.value)
    ensures r == Ok(None) <==>
              |devices| > 0 && forall h :: 0 <= h < deviceGroupCount ==> !IsDeviceSuitable(devices[h])
  {
    if deviceGroupCount == 0 then Err(NoVulkanGpus)
    else
      var enumerated := devices[..deviceGroupCount];
      var cands := CandidatesOf(enumerated);
      match FindFirstSuitable(enumerated, cands, 0)
      case Some(k) =>
        assert enumerated[cands[k].handle] == devices[cands[k].handle];
        Ok(Some(cands[k].handle))
      case None =>
        NoneSuitableAmongCandidates(devices, deviceGroupCount);
        Ok(None)
  }

  /** Handle `h` is what the ascending walk over the multimap of `ds` picks:
      the first suitable candidate in multimap order names device `h`. */
  ghost predicate PickedAsWritten(ds: seq<PhysicalDevice>, h: nat)
    ensures PickedAsWritten(ds, h) ==> h < |ds| && IsDeviceSuitable(ds[h])
  {
    var cands := CandidatesOf(ds);
    exists k: nat :: FirstSuitableAt(ds, cands, k) && cands[k].handle == h
  }

  /** The walk finds nothing exactly when no enumerated device is suitable:
      every enumerated device is among the candidates. */
  lemma NoneSuitableAmongCandidates(devices: seq<PhysicalDevice>, n: nat)
    requires 0 < n <= |devices|
    ensures var cands := CandidatesOf(devices[..n]);
            (forall j :: 0 <= j < |cands| ==> !IsDeviceSuitable(devices[..n][cands[j].handle])) <==>
            (forall h :: 0 <= h < n ==> !IsDeviceSuitable(devices[h]))
  {
    var enumerated := devices[..n];
    var cands := CandidatesOf(enumerated);
    if forall j :: 0 <= j < |cands| ==> !IsDeviceSuitable(enumerated[cands[j].handle]) {
      forall h | 0 <= h < n
        ensures !IsDeviceSuitable(devices[h])
      {
        EveryDeviceIsCandidate(Scores(enumerated), h);
        assert enumerated[h] == devices[h];
      }
    }
  }

  /** Among the first `n` devices, device `k` is the one selection should
      pick when the candidates are walked from the highest score down with
      first-seen-wins ties: it is suitable, no suitable device scores higher,
      and no earlier suitable device scores the same. */
  ghost predicate IsBestAmong(ds: seq<PhysicalDevice>, n: nat, k: nat)
    requires n <= |ds|
  {
    && k < n
    && IsDeviceSuitable(ds[k])
    && (forall j :: 0 <= j < n && IsDeviceSuitable(ds[j]) ==>
          RateDeviceSuitability(ds[j]) <= RateDeviceSuitability(ds[k]))
    && (forall j :: 0 <= j < k && IsDeviceSuitable(ds[j]) ==>
          RateDeviceSuitability(ds[j]) < RateDeviceSuitability(ds[k]))
  }

  /** `best` is the best suitable device among the first `n`, or `None` when
      none of them is suitable. */
  ghost predicate BestSoFar(ds: seq<PhysicalDevice>, n: nat, best: Option<nat>)
    requires n <= |ds|
  {
    match best
    case None => forall j :: 0 <= j < n ==> !IsDeviceSuitable(ds[j])
    case Some(k) => IsBestAmong(ds, n, k)
  }

  /** Scan for the best suitable device, replacing the current best only by a
      strictly higher score, so that the first device seen wins a tie. */
  function ScanBestSuitable(ds: seq<PhysicalDevice>, i: nat, best: Option<nat>): (r: Option<nat>)
    requires i <= |ds|
    requires BestSoFar(ds, i, best)
    ensures BestSoFar(ds, |ds|, r)
    decreases |ds| - i
  {
    if i == |ds| then best
    else
      var next := ScanStep(ds, i, best);
      ScanBestSuitable(ds, i + 1, next)
  }

  /** One step of the scan: device `i` replaces the best so far exactly when
      it is suitable and scores strictly higher. */
  function ScanStep(ds: seq<PhysicalDevice>, i: nat, best: Option<nat>): (next: Option<nat>)
    requires i < |ds|
    requires BestSoFar(ds, i, best)
    ensures BestSoFar(ds, i + 1, next)
  {
    ScanStepKeepsBest(ds, i, best);
    if Replaces(ds, i, best) then Some(i) else best
  }

  predicate Replaces(ds: seq<PhysicalDevice>, i: nat, best: Option<nat>)
    requires i < |ds|
    requires best.Some? ==> best.value < |ds|
  {
    IsDeviceSuitable(ds[i]) && (best.None? || RateDeviceSuitability(ds[best.value]) < RateDeviceSuitability(ds[i]))
  }

  lemma ScanStepKeepsBest(ds: seq<PhysicalDevice>, i: nat, best: Option<nat>)
    requires i < |ds|
    requires BestSoFar(ds, i, best)
    ensures BestSoFar(ds, i + 1, if Replaces(ds, i, best) then Some(i) else best)
  {
    var suitable := IsDeviceSuitable(ds[i]);
    var score := RateDeviceSuitability(ds[i]);
    match best
    case None =>
    case Some(k) =>
      var top := RateDeviceSuitability(ds[k]);
      if suitable && top < score {
        forall j | 0 <= j < i + 1 && IsDeviceSuitable(ds[j])
          ensures RateDeviceSuitability(ds[j]) <= score
        {
          if j < i {
            assert RateDeviceSuitability(ds[j]) <= top;
          }
        }
      } else {
        forall j | 0 <= j < i + 1 && IsDeviceSuitable(ds[j])
          ensures RateDeviceSuitability(ds[j]) <= top
        {
          if j == i {
            assert !(top < score);
          }
        }
      }
  }

  /** Device selection as `pickPhysicalDevice` evidently intends it (its comment says
      the highest-scoring device is checked first): every device the driver
      exposes is considered, and the handle of the suitable device with the
      highest score is picked, the first one enumerated among equals. */
  function PickPhysicalDevice(devices: seq<PhysicalDevice>): (r: Result<Option<nat>>)
    ensures r.Err? <==> |devices| == 0
    ensures r.Err? ==> r.error == NoVulkanGpus
    ensures r.Ok? && r.value.Some? ==> IsBestAmong(devices, |devices|, r.value.value)
    ensures r == Ok(None) <==>
              |devices| > 0 && forall h :: 0 <= h < |devices| ==> !IsDeviceSuitable(devices[h])
  {
    if |devices| == 0 then Err(NoVulkanGpus)
    else Ok(ScanBestSuitable(devices, 0, None))
  }

  /** When every device forms its own group, the selection as written and the intended
      selection succeed on the same inputs: they may differ in WHICH device
      they pick, never in whether they pick one. */
  lemma PickSucceedsTogether(devices: seq<PhysicalDevice>)
    ensures PickPhysicalDeviceAsWritten(|devices|, devices).Err? <==> PickPhysicalDevice(devices).Err?
    ensures PickPhysicalDeviceAsWritten(|devices|, devices) == Ok(None) <==> PickPhysicalDevice(devices) == Ok(None)
  {
    assert devices[..|devices|] == devices;
  }

  /** A device with one queue family that does graphics, and presentation
      when `present` holds. */
  function OneFamilyDevice(t: DeviceType, present: bool): (d: PhysicalDevice)
    ensures IsDeviceSuitable(d) == present
  {
    var d := PhysicalDevice(t, true, [QueueFamily(QUEUE_GRAPHICS_BIT, present)]);
    assert Supports(d.queueFamilies[0], Graphics);
    assert present ==> Supports(d.queueFamilies[0], Present);
    d
  }

  /** A discrete GPU with no presentation queue scores 1000 but is skipped;
      the integrated GPU that has both queues is picked, by the selection as written and by
      the intended selection alike. */
  lemma UnsuitableTopScorerIsSkipped()
    ensures var ds := [OneFamilyDevice(DiscreteGpu, false), OneFamilyDevice(IntegratedGpu, true)];
            && RateDeviceSuitability(ds[0]) == 1000
            && PickPhysicalDeviceAsWritten(2, ds) == Ok(Some(1))
            && PickPhysicalDevice(ds) == Ok(Some(1))
  {
    var ds := [OneFamilyDevice(DiscreteGpu, false), OneFamilyDevice(IntegratedGpu, true)];
    assert !IsDeviceSuitable(ds[0]) && IsDeviceSuitable(ds[1]);
    var asWritten := PickPhysicalDeviceAsWritten(2, ds);
    assert asWritten.Ok? && asWritten.value.Some?;
    assert IsDeviceSuitable(ds[asWritten.value.value]);
    var intended := PickPhysicalDevice(ds);
    assert intended.Ok? && intended.value.Some?;
    assert IsDeviceSuitable(ds[intended.value.value]);
  }

  /** The ascending multimap walk picks a 0-scoring integrated GPU over a
      suitable 1000-scoring discrete GPU enumerated first; the intended
      selection picks the discrete one. */
  lemma AscendingWalkPrefersLowScore()
    ensures var ds := [OneFamilyDevice(DiscreteGpu, true), OneFamilyDevice(IntegratedGpu, true)];
            && PickPhysicalDeviceAsWritten(2, ds) == Ok(Some(1))
            && PickPhysicalDevice(ds) == Ok(Some(0))
  {
    var ds := [OneFamilyDevice(DiscreteGpu, true), OneFamilyDevice(IntegratedGpu, true)];
    assert ds[..2] == ds;
    var scores := Scores(ds);
    assert scores == [1000, 0];
    assert scores[..1] == [1000];
    assert [1000][..0] == [];
    assert BuildCandidates([1000]) == [Candidate(1000, 0)];
    assert BuildCandidates(scores) == InsertCandidate([Candidate(1000, 0)], Candidate(0, 1));
    assert CandidatesOf(ds) == [Candidate(0, 1), Candidate(1000, 0)];
    var best := PickPhysicalDevice(ds).value.value;
    assert IsBestAmong(ds, 2, best);
    assert IsDeviceSuitable(ds[0]) && RateDeviceSuitability(ds[0]) > RateDeviceSuitability(ds[1]);
  }

  /** Two devices in one group: the group count is 1, so only the first,
      unsuitable device is enumerated and nothing is picked, although the
      second device is suitable. */
  lemma GroupCountHidesDevice()
    ensures var ds := [OneFamilyDevice(IntegratedGpu, false), OneFamilyDevice(IntegratedGpu, true)];
            && PickPhysicalDeviceAsWritten(1, ds) == Ok(None)
            && PickPhysicalDevice(ds) == Ok(Some(1))
  {
    var ds := [OneFamilyDevice(IntegratedGpu, false), OneFamilyDevice(IntegratedGpu, true)];
    assert ds[..1] == [ds[0]];
    assert !IsDeviceSuitable(ds[0]) && IsDeviceSuitable(ds[1]);
    assert PickPhysicalDeviceAsWritten(1, ds) == Ok(None);
    var best := PickPhysicalDevice(ds).value;
    assert best.Some? && IsBestAmong(ds, 2, best.value);
  }
}
