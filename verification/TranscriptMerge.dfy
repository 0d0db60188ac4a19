/**
 * Merging chunk transcripts (`chunking.py`, `merge_transcript_parts_with_diagnostics`). A text is the list of its
 * words; `norm` is the word normaliser, any function at all.
 */
module TranscriptMerge {
  import opened Common
  import opened StableSort

  type Word = string

  datatype Part = Part(index: int, start: real, end: real, words: seq<Word>)

  predicate Before(a: Part, b: Part) {
    a.start < b.start || (a.start == b.start && a.index <= b.index)
  }

  /** The last `size` words of `old` and the first `size` of `fresh` agree after normalisation, none of them empty. */
  predicate Overlaps(old': seq<Word>, fresh': seq<Word>, size: nat, norm: Word -> Word)
    requires size <= |old'| && size <= |fresh'|
  {
    forall i :: 0 <= i < size ==> norm(old'[|old'| - size + i]) == norm(fresh'[i]) != ""
  }

  /** `_exact_overlap_size`: the longest overlap of at least two words within `maximum`, or none. */
  method ExactOverlapSize(old': seq<Word>, fresh': seq<Word>, maximum: int, norm: Word -> Word) returns (size: nat)
    requires maximum <= |old'| && maximum <= |fresh'|
    ensures LongestOverlap(old', fresh', maximum, size, norm)
  {
    var k := maximum;
    while k > 1
      invariant k <= maximum
      invariant forall j :: 2 <= j <= maximum && k < j ==> !Overlaps(old', fresh', j, norm)
    {
      if Overlaps(old', fresh', k, norm) {
        return k;
      }
      k := k - 1;
    }
    return 0;
  }

  ghost predicate LongestOverlap(old': seq<Word>, fresh': seq<Word>, maximum: int, size: nat, norm: Word -> Word)
    requires maximum <= |old'| && maximum <= |fresh'|
  {
    && (size == 0 || (2 <= size <= maximum && Overlaps(old', fresh', size, norm)))
    && forall j :: 2 <= j <= maximum && size < j ==> !Overlaps(old', fresh', j, norm)
  }

  function Min(a: int, b: int): int { if a <= b then a else b }

  /** `int(x)` of Python: towards zero. */
  function Truncate(x: real): int {
    if x >= 0.0 then x.Floor else -(-x).Floor
  }

  /** `max_overlap_words`, `maximum_words_per_second` and the normaliser. */
  datatype Rules = Rules(maxWords: int, wordsPerSecond: real, norm: Word -> Word) {

    /** How many words an acoustic overlap of so many seconds can hold at most. */
    function Acoustic(seconds: real): int {
      var n := Truncate(seconds * wordsPerSecond) + 1;
      if n > 2 then n else 2
    }

    function Limit(seconds: real, oldCount: nat, newCount: nat): int {
      Min(Min(maxWords, Acoustic(seconds)), Min(oldCount, newCount))
    }
  }

  /** The limit: the largest number within the four that the source takes the minimum of. */
  lemma LimitMeaning(rules: Rules, seconds: real, oldCount: nat, newCount: nat, n: int)
    requires seconds > 0.0 && rules.wordsPerSecond >= 0.0
    ensures n <= rules.Limit(seconds, oldCount, newCount) <==>
            && n <= rules.maxWords && n <= oldCount && n <= newCount
            && (n <= 2 || (n - 1) as real <= seconds * rules.wordsPerSecond)
  {
    assert seconds * rules.wordsPerSecond >= 0.0;
  }

  /** The parts in chronological order, by index where they start together; otherwise as they were given. */
  ghost predicate Chronological(parts: seq<Part>, ordered: seq<Part>) {
    && multiset(ordered) == multiset(parts)
    && (forall i, j :: 0 <= i < j < |ordered| ==>
          ordered[i].start < ordered[j].start ||
          (ordered[i].start == ordered[j].start && ordered[i].index <= ordered[j].index))
    && (forall start: real, index: int :: Together(ordered, start, index) == Together(parts, start, index))
  }

  /** The parts with this start and index, in order. */
  function Together(ps: seq<Part>, start: real, index: int): seq<Part> {
    Filter(ps, (q: Part) => q.start == start && q.index == index)
  }

  lemma SortIsChronological(parts: seq<Part>)
    ensures Chronological(parts, Sort(parts, Before))
  {
    BeforeIsOrder();
    SortSorted(parts, Before);
    forall start: real, index: int
      ensures Together(Sort(parts, Before), start, index) == Together(parts, start, index)
    {
      TogetherIsSame(parts, start, index);
      TogetherIsSame(Sort(parts, Before), start, index);
      SortStable(parts, Before, Part(index, start, start, []));
    }
  }

  lemma BeforeIsOrder()
    ensures Preorder(Before)
  {
  }

  lemma TogetherIsSame(ps: seq<Part>, start: real, index: int)
    ensures Together(ps, start, index) == Filter(ps, Same(Before, Part(index, start, start, [])))
  {
    var p := Part(index, start, start, []);
    forall q: Part ensures Same(Before, p)(q) <==> q.start == start && q.index == index {
      assert Same(Before, p)(q) <==> Before(q, p) && Before(p, q);
    }
    FilterAgrees(ps, (q: Part) => q.start == start && q.index == index, Same(Before, p));
  }

  // ---- what a merge is ----

  /** The last part with words. */
  function LastSpoken(ps: seq<Part>): Option<Part> {
    if ps == [] then None
    else if ps[|ps| - 1].words != [] then Some(ps[|ps| - 1])
    else LastSpoken(ps[..|ps| - 1])
  }

  function Drop(ws: seq<Word>, n: nat): seq<Word> {
    if n <= |ws| then ws[n..] else []
  }

  /** Every part without its first `cuts[i]` words. */
  function Joined(ps: seq<Part>, cuts: seq<nat>): seq<Word>
    requires |cuts| == |ps|
  {
    if ps == [] then []
    else Joined(ps[..|ps| - 1], cuts[..|ps| - 1]) + Drop(ps[|ps| - 1].words, cuts[|ps| - 1])
  }

  /** The cut at a part: the longest exact overlap with what was merged, and only where the audio overlaps. */
  ghost predicate CutOk(before: seq<Word>, previous: Option<Part>, p: Part, cut: nat, rules: Rules) {
    if p.words == [] || previous.None? || previous.value.end <= p.start then cut == 0
    else
      LongestOverlap(before, p.words, rules.Limit(previous.value.end - p.start, |before|, |p.words|), cut, rules.norm)
  }

  ghost predicate CutsOk(ps: seq<Part>, cuts: seq<nat>, rules: Rules) {
    && |cuts| == |ps|
    && (ps != [] ==>
          var n := |ps| - 1;
          && CutsOk(ps[..n], cuts[..n], rules)
          && CutOk(Joined(ps[..n], cuts[..n]), LastSpoken(ps[..n]), ps[n], cuts[n], rules))
  }

  lemma CutFits(before: seq<Word>, previous: Option<Part>, p: Part, cut: nat, rules: Rules)
    requires CutOk(before, previous, p, cut, rules)
    ensures cut <= |p.words| && cut <= |before|
    ensures cut > 0 ==> Overlaps(before, p.words, cut, rules.norm)
    ensures cut == 0 || (2 <= cut <= rules.maxWords && previous.Some? && previous.value.end > p.start)
  {
  }

  function WordCount(ps: seq<Part>): nat {
    if ps == [] then 0 else |ps[0].words| + WordCount(ps[1..])
  }

  function Total(cuts: seq<nat>): nat {
    if cuts == [] then 0 else Total(cuts[..|cuts| - 1]) + cuts[|cuts| - 1]
  }

  function Normalised(ws: seq<Word>, norm: Word -> Word): (r: seq<Word>)
    ensures |r| == |ws|
  {
    seq(|ws|, i requires 0 <= i < |ws| => norm(ws[i]))
  }

  /** `part` occurs in `whole` as consecutive words. */
  ghost predicate Contains(whole: seq<Word>, part: seq<Word>) {
    exists i :: 0 <= i <= |whole| - |part| && OccursAt(whole, part, i)
  }

  ghost predicate OccursAt(whole: seq<Word>, part: seq<Word>, i: int)
    requires 0 <= i <= |whole| - |part|
  {
    whole[i..i + |part|] == part
  }

  /** Part `i` has words, and the last part with words before it is still heard when it starts. */
  ghost predicate HeardTwice(ps: seq<Part>, i: int) {
    && 0 <= i < |ps| && ps[i].words != []
    && exists j :: 0 <= j < i && ps[j].words != [] && (forall k :: j < k < i ==> ps[k].words == []) &&
                   ps[j].end > ps[i].start
  }

  ghost function HeardTwiceParts(ps: seq<Part>): set<int> {
    set i | 0 <= i < |ps| && HeardTwice(ps, i)
  }

  /** The last part with words is what it is called. */
  lemma {:induction false} SpokenMeaning(ps: seq<Part>)
    ensures LastSpoken(ps).None? ==> forall i :: 0 <= i < |ps| ==> ps[i].words == []
    ensures LastSpoken(ps).Some? ==>
              exists j :: 0 <= j < |ps| && ps[j] == LastSpoken(ps).value && ps[j].words != [] &&
                          forall k :: j < k < |ps| ==> ps[k].words == []
  {
    if ps != [] && ps[|ps| - 1].words == [] {
      SpokenMeaning(ps[..|ps| - 1]);
    }
  }

  ghost function SilentParts(ps: seq<Part>): set<int> {
    set i | 0 <= i < |ps| && ps[i].words == []
  }

  lemma HeardTwiceSnoc(ps: seq<Part>, p: Part)
    ensures var again := p.words != [] && LastSpoken(ps).Some? && LastSpoken(ps).value.end > p.start;
      |HeardTwiceParts(ps + [p])| == |HeardTwiceParts(ps)| + if again then 1 else 0
  {
    LastIsHeardTwice(ps, p);
    HeardTwiceGrows(ps, p);
  }

  lemma HeardTwiceGrows(ps: seq<Part>, p: Part)
    ensures HeardTwiceParts(ps + [p]) == HeardTwiceParts(ps) + if HeardTwice(ps + [p], |ps|) then {|ps|} else {}
  {
    forall i | 0 <= i < |ps| ensures HeardTwice(ps + [p], i) <==> HeardTwice(ps, i) {
      HeardTwicePrefix(ps, p, i);
    }
  }

  lemma HeardTwicePrefix(ps: seq<Part>, p: Part, i: int)
    requires 0 <= i < |ps|
    ensures HeardTwice(ps + [p], i) <==> HeardTwice(ps, i)
  {
    var all := ps + [p];
    assert forall k :: 0 <= k < |ps| ==> all[k] == ps[k];
  }

  lemma LastIsHeardTwice(ps: seq<Part>, p: Part)
    ensures HeardTwice(ps + [p], |ps|) <==>
            p.words != [] && LastSpoken(ps).Some? && LastSpoken(ps).value.end > p.start
  {
    var all := ps + [p];
    assert forall k :: 0 <= k < |ps| ==> all[k] == ps[k];
    SpokenMeaning(ps);
    if LastSpoken(ps).Some? {
      var j :| 0 <= j < |ps| && ps[j] == LastSpoken(ps).value && ps[j].words != [] &&
               forall k :: j < k < |ps| ==> ps[k].words == [];
      assert all[j] == ps[j] && all[|ps|] == p;
      assert forall k :: 0 <= k < |ps| && ps[k].words != [] && k != j ==> k < j;
    }
  }

  lemma {:induction false} EmptyPartsCounted(ps: seq<Part>)
    ensures EmptyParts(ps) == |SilentParts(ps)|
  {
    if ps != [] {
      var n := |ps| - 1;
      EmptyPartsCounted(ps[..n]);
      assert SilentParts(ps) == SilentParts(ps[..n]) + if ps[n].words == [] then {n} else {};
    }
  }

  function EmptyParts(ps: seq<Part>): nat {
    if ps == [] then 0 else EmptyParts(ps[..|ps| - 1]) + if ps[|ps| - 1].words == [] then 1 else 0
  }

  // ---- merging ----

  /** The overlap decision at one boundary. */
  method CutFor(merged: seq<Word>, previous: Option<Part>, current: Part, rules: Rules)
    returns (cut: nat, boundary: bool)
    requires current.words != []
    ensures CutOk(merged, previous, current, cut, rules)
    ensures boundary <==> previous.Some? && previous.value.end > current.start
  {
    cut, boundary := 0, false;
    if previous.Some? {
      var seconds := previous.value.end - current.start;
      if seconds > 0.0 {
        boundary := true;
        cut := ExactOverlapSize(merged, current.words, rules.Limit(seconds, |merged|, |current.words|), rules.norm);
      }
    }
  }

  /** The loop body for a part with words. */
  method AddPart(ghost seen: seq<Part>, ghost cuts: seq<nat>, merged: seq<Word>, previous: Option<Part>, current: Part,
                 rules: Rules)
    returns (kept: seq<Word>, gone: nat, boundary: bool)
    requires CutsOk(seen, cuts, rules) && merged == Joined(seen, cuts) && previous == LastSpoken(seen)
    requires current.words != []
    ensures boundary <==> previous.Some? && previous.value.end > current.start
    ensures CutsOk(seen + [current], cuts + [gone], rules)
    ensures kept == Joined(seen + [current], cuts + [gone]) && Total(cuts + [gone]) == Total(cuts) + gone
  {
    gone, boundary := CutFor(merged, previous, current, rules);
    CutsSnoc(seen, cuts, current, gone, rules);
    CutFits(merged, previous, current, gone, rules);
    kept := merged + current.words[gone..];
  }

  lemma EmptyCut(seen: seq<Part>, cuts: seq<nat>, p: Part, rules: Rules)
    requires CutsOk(seen, cuts, rules) && p.words == []
    ensures CutsOk(seen + [p], cuts + [0], rules)
    ensures Joined(seen + [p], cuts + [0]) == Joined(seen, cuts) && Total(cuts + [0]) == Total(cuts)
  {
    CutsSnoc(seen, cuts, p, 0, rules);
  }

  /** The merge variables. */
  datatype Progress = Progress(merged: seq<Word>, previous: Option<Part>, boundaries: nat, removed: nat, skipped: nat)

  /** What the merge variables hold after the parts `seen`. */
  ghost predicate Merging(seen: seq<Part>, cuts: seq<nat>, m: Progress, rules: Rules) {
    && CutsOk(seen, cuts, rules) && m.merged == Joined(seen, cuts) && m.previous == LastSpoken(seen)
    && m.removed == Total(cuts) && m.skipped == EmptyParts(seen) && m.boundaries == |HeardTwiceParts(seen)|
  }

  lemma MergeOn(seen: seq<Part>, p: Part, cuts: seq<nat>, m: Progress, gone: nat, kept: seq<Word>, again: bool,
                rules: Rules)
    requires Merging(seen, cuts, m, rules)
    requires again <==> p.words != [] && m.previous.Some? && m.previous.value.end > p.start
    requires CutsOk(seen + [p], cuts + [gone], rules) && kept == Joined(seen + [p], cuts + [gone])
    requires Total(cuts + [gone]) == Total(cuts) + gone
    ensures Merging(seen + [p], cuts + [gone],
                    Progress(kept, if p.words == [] then m.previous else Some(p),
                             m.boundaries + if again then 1 else 0, m.removed + gone,
                             m.skipped + if p.words == [] then 1 else 0), rules)
  {
    SpokenSnoc(seen, p);
    HeardTwiceSnoc(seen, p);
  }

  /** The loop body of `merge_transcript_parts_with_diagnostics`. */
  method MergeNext(ghost seen: seq<Part>, ghost cuts: seq<nat>, m: Progress, current: Part, rules: Rules)
    returns (m': Progress, ghost gone: nat)
    requires Merging(seen, cuts, m, rules)
    ensures Merging(seen + [current], cuts + [gone], m', rules)
  {
    if current.words == [] {
      EmptyCut(seen, cuts, current, rules);
      MergeOn(seen, current, cuts, m, 0, m.merged, false, rules);
      return m.(skipped := m.skipped + 1), 0;
    }
    var kept, cut, boundary := AddPart(seen, cuts, m.merged, m.previous, current, rules);
    MergeOn(seen, current, cuts, m, cut, kept, boundary, rules);
    m' := Progress(kept, Some(current), m.boundaries + if boundary then 1 else 0, m.removed + cut, m.skipped);
    gone := cut;
  }

  lemma PrefixSnoc(ps: seq<Part>, i: nat)
    requires i < |ps|
    ensures ps[..i + 1] == ps[..i] + [ps[i]]
  {
  }

  /** The loop of `merge_transcript_parts_with_diagnostics`, over parts in chronological order. */
  method MergeSorted(ordered: seq<Part>, rules: Rules) returns (m: Progress, ghost cuts: seq<nat>)
    ensures Merging(ordered, cuts, m, rules)
  {
    m, cuts := Progress([], None, 0, 0, 0), [];
    assert ordered[..0] == [];
    for i := 0 to |ordered|
      invariant Merging(ordered[..i], cuts, m, rules)
    {
      ghost var gone;
      PrefixSnoc(ordered, i);
      m, gone := MergeNext(ordered[..i], cuts, m, ordered[i], rules);
      cuts := cuts + [gone];
    }
    assert ordered[..|ordered|] == ordered;
  }

  /**
   * `merge_transcript_parts_with_diagnostics`. `cuts` says how many words were taken off the front of each part in
   * chronological order. No word is lost or invented, and every part can still be read off the merged text. The
   * diagnostics count the parts that are heard twice at their start and those without words.
   */
  method MergeParts(parts: seq<Part>, rules: Rules)
    returns (merged: seq<Word>, boundaries: nat, removed: nat, skipped: nat, ghost ordered: seq<Part>,
             ghost cuts: seq<nat>)
    ensures Chronological(parts, ordered)
    ensures CutsOk(ordered, cuts, rules) && merged == Joined(ordered, cuts) && removed == Total(cuts)
    ensures boundaries == |HeardTwiceParts(ordered)| && skipped == |SilentParts(ordered)|
    ensures WordCount(parts) == |merged| + removed
    ensures forall p :: p in parts ==> Contains(Normalised(merged, rules.norm), Normalised(p.words, rules.norm))
  {
    var sorted := Sort(parts, Before);
    ordered := sorted;
    var m;
    m, cuts := MergeSorted(sorted, rules);
    merged, boundaries, removed, skipped := m.merged, m.boundaries, m.removed, m.skipped;
    SortIsChronological(parts);
    EmptyPartsCounted(ordered);
    CutsFit(ordered, cuts, rules);
    MergeConserves(ordered, cuts);
    SortKeepsCount(parts);
    SortMembers(parts, Before);
    forall p | p in parts ensures Contains(Normalised(merged, rules.norm), Normalised(p.words, rules.norm)) {
      var k :| 0 <= k < |ordered| && ordered[k] == p;
      PartReadable(ordered, cuts, rules, k);
    }
  }

  lemma SpokenSnoc(ps: seq<Part>, p: Part)
    ensures LastSpoken(ps + [p]) == if p.words != [] then Some(p) else LastSpoken(ps)
    ensures EmptyParts(ps + [p]) == EmptyParts(ps) + if p.words == [] then 1 else 0
  {
    assert (ps + [p])[..|ps|] == ps;
  }

  /** One more part with its cut. */
  lemma CutsSnoc(ps: seq<Part>, cuts: seq<nat>, p: Part, cut: nat, rules: Rules)
    requires CutsOk(ps, cuts, rules) && CutOk(Joined(ps, cuts), LastSpoken(ps), p, cut, rules)
    ensures CutsOk(ps + [p], cuts + [cut], rules)
    ensures Joined(ps + [p], cuts + [cut]) == Joined(ps, cuts) + Drop(p.words, cut)
    ensures Total(cuts + [cut]) == Total(cuts) + cut
  {
    var all, more := ps + [p], cuts + [cut];
    assert all[..|ps|] == ps && more[..|cuts|] == cuts;
  }

  ghost predicate Fit(ps: seq<Part>, cuts: seq<nat>) {
    |cuts| == |ps| && forall i :: 0 <= i < |ps| ==> cuts[i] <= |ps[i].words|
  }

  lemma {:induction false} CutsFit(ps: seq<Part>, cuts: seq<nat>, rules: Rules)
    requires CutsOk(ps, cuts, rules)
    ensures Fit(ps, cuts)
  {
    if ps != [] {
      var n := |ps| - 1;
      CutsFit(ps[..n], cuts[..n], rules);
      CutFits(Joined(ps[..n], cuts[..n]), LastSpoken(ps[..n]), ps[n], cuts[n], rules);
      forall i | 0 <= i < n ensures cuts[i] <= |ps[i].words| {
        assert cuts[i] == cuts[..n][i] && ps[i] == ps[..n][i];
      }
    }
  }

  /** Words kept and words removed add up. */
  lemma {:induction false} MergeConserves(ps: seq<Part>, cuts: seq<nat>)
    requires Fit(ps, cuts)
    ensures WordCount(ps) == |Joined(ps, cuts)| + Total(cuts)
  {
    if ps != [] {
      var n := |ps| - 1;
      MergeConserves(ps[..n], cuts[..n]);
      assert ps == ps[..n] + [ps[n]];
      CountConcat(ps[..n], [ps[n]]);
    }
  }

  lemma {:induction false} CountConcat(a: seq<Part>, b: seq<Part>)
    ensures WordCount(a + b) == WordCount(a) + WordCount(b)
  {
    if a == [] {
      assert a + b == b;
    } else {
      assert (a + b)[1..] == a[1..] + b;
      CountConcat(a[1..], b);
    }
  }

  lemma {:induction false} InsertKeepsCount(p: Part, ps: seq<Part>)
    ensures WordCount(Insert(p, ps, Before)) == |p.words| + WordCount(ps)
  {
    if ps == [] || Before(p, ps[0]) {
      assert ([p] + ps)[1..] == ps;
    } else {
      InsertKeepsCount(p, ps[1..]);
      assert ([ps[0]] + Insert(p, ps[1..], Before))[1..] == Insert(p, ps[1..], Before);
    }
  }

  lemma {:induction false} SortKeepsCount(ps: seq<Part>)
    ensures WordCount(Sort(ps, Before)) == WordCount(ps)
  {
    if ps != [] {
      SortKeepsCount(ps[1..]);
      InsertKeepsCount(ps[0], Sort(ps[1..], Before));
    }
  }

  /** Part `k` can be read off the merged words: its kept words follow words that equal the removed ones. */
  lemma {:induction false} PartReadable(ps: seq<Part>, cuts: seq<nat>, rules: Rules, k: nat)
    requires CutsOk(ps, cuts, rules) && k < |ps|
    ensures Contains(Normalised(Joined(ps, cuts), rules.norm), Normalised(ps[k].words, rules.norm))
  {
    var n := |ps| - 1;
    var before := Joined(ps[..n], cuts[..n]);
    var rest := Drop(ps[n].words, cuts[n]);
    if k == n {
      CutFits(before, LastSpoken(ps[..n]), ps[n], cuts[n], rules);
      LastPartReadable(before, ps[n].words, cuts[n], rules.norm);
    } else {
      PartReadable(ps[..n], cuts[..n], rules, k);
      NormalisedConcat(before, rest, rules.norm);
      ContainsGrows(Normalised(before, rules.norm), Normalised(rest, rules.norm), Normalised(ps[k].words, rules.norm));
    }
  }

  lemma LastPartReadable(before: seq<Word>, words: seq<Word>, cut: nat, norm: Word -> Word)
    requires cut <= |words| && cut <= |before| && (cut > 0 ==> Overlaps(before, words, cut, norm))
    ensures Contains(Normalised(before + Drop(words, cut), norm), Normalised(words, norm))
  {
    var all, at := before + words[cut..], |before| - cut;
    var whole, part := Normalised(all, norm), Normalised(words, norm);
    forall i | 0 <= i < |words| ensures whole[at + i] == part[i] {
      if i < cut {
        assert all[at + i] == before[|before| - cut + i];
      } else {
        assert all[at + i] == words[i];
      }
    }
    assert whole[at..at + |part|] == part;
    assert OccursAt(whole, part, at);
  }

  lemma NormalisedConcat(a: seq<Word>, b: seq<Word>, norm: Word -> Word)
    ensures Normalised(a + b, norm) == Normalised(a, norm) + Normalised(b, norm)
  {
  }

  lemma ContainsGrows(a: seq<Word>, b: seq<Word>, part: seq<Word>)
    requires Contains(a, part)
    ensures Contains(a + b, part)
  {
    var i :| 0 <= i <= |a| - |part| && OccursAt(a, part, i);
    assert (a + b)[i..i + |part|] == a[i..i + |part|];
    assert OccursAt(a + b, part, i);
  }

  /** Every removed word was heard twice: without acoustic overlap nothing is removed, whatever people repeat. */
  lemma {:induction false} NoOverlapNoCut(ps: seq<Part>, cuts: seq<nat>, rules: Rules)
    requires CutsOk(ps, cuts, rules)
    requires forall i, j :: 0 <= i < j < |ps| ==> ps[i].end <= ps[j].start
    ensures Total(cuts) == 0
  {
    if ps != [] {
      var n := |ps| - 1;
      NoOverlapNoCut(ps[..n], cuts[..n], rules);
      SpokenIsMember(ps[..n]);
      CutFits(Joined(ps[..n], cuts[..n]), LastSpoken(ps[..n]), ps[n], cuts[n], rules);
    }
  }

  lemma {:induction false} SpokenIsMember(ps: seq<Part>)
    ensures LastSpoken(ps).Some? ==> exists i :: 0 <= i < |ps| && ps[i] == LastSpoken(ps).value
  {
    if ps != [] && ps[|ps| - 1].words == [] {
      SpokenIsMember(ps[..|ps| - 1]);
    }
  }
}
