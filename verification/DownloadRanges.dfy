/** Fanning a download out into byte ranges and putting the parts back together. */
module DownloadRanges {
  import opened Arithmetic

  const MAX_DOWNLOAD_BYTES: nat := 16 * 1024 * 1024 * 1024
  const PARALLEL_DOWNLOAD_THRESHOLD_BYTES: nat := 8 * 1024 * 1024
  const PARALLEL_DOWNLOAD_PARTS: nat := 4

  /** An inclusive byte range, as the `Range` header writes it. */
  datatype Range = Range(start: nat, end: nat)

  function DivCeil(a: nat, b: nat): nat
    requires b > 0
  {
    (a + b - 1) / b
  }

  function PartsFor(total: nat): nat {
    Min(PARALLEL_DOWNLOAD_PARTS, DivCeil(total, PARALLEL_DOWNLOAD_THRESHOLD_BYTES))
  }

  /** The ranges of parts `i`, `i + 1`, ... that hold any byte. */
  function PlanFrom(total: nat, parts: nat, size: nat, i: nat): seq<Range>
    requires i <= parts
    decreases parts - i
  {
    if i == parts then []
    else
      var start := i * size;
      var end := SaturatingSub(Min(start + size, total), 1);
      (if start <= end then [Range(start, end)] else []) + PlanFrom(total, parts, size, i + 1)
  }

  function Plan(total: nat, parts: nat): seq<Range>
    requires parts > 0
  {
    PlanFrom(total, parts, DivCeil(total, parts), 0)
  }

  /** Non-empty ranges, each starting where the one before stopped, from `from` up to `to`. */
  ghost predicate Tiles(ranges: seq<Range>, from: nat, to: nat) {
    if ranges == [] then from == to
    else ranges[0].start == from && from <= ranges[0].end && Tiles(ranges[1..], ranges[0].end + 1, to)
  }

  lemma PartsReachTheEnd(total: nat, parts: nat)
    requires parts > 0
    ensures total <= parts * DivCeil(total, parts) < total + parts
  {
    var q, r := (total + parts - 1) / parts, (total + parts - 1) % parts;
    assert total + parts - 1 == parts * q + r;
  }

  /** One part, with bytes or without, before tiles that begin where it ends. */
  lemma PartThenTiles(total: nat, start: nat, size: nat, rest: seq<Range>)
    requires size > 0 && total > 0 && Tiles(rest, Min(start + size, total), total)
    ensures var end := SaturatingSub(Min(start + size, total), 1);
            Tiles((if start <= end then [Range(start, end)] else []) + rest, Min(start, total), total)
  {
    var end := SaturatingSub(Min(start + size, total), 1);
    assert ([Range(start, end)] + rest)[1..] == rest;
    assert [] + rest == rest;
  }

  lemma {:induction false} PlanFromTiles(total: nat, parts: nat, size: nat, i: nat)
    requires i <= parts && 0 < total <= parts * size
    ensures Tiles(PlanFrom(total, parts, size, i), Min(i * size, total), total)
    decreases parts - i
  {
    if i < parts {
      PlanFromTiles(total, parts, size, i + 1);
      assert (i + 1) * size == i * size + size && size > 0;
      PartThenTiles(total, i * size, size, PlanFrom(total, parts, size, i + 1));
    }
  }

  /** However a non-empty file is divided, the planned ranges cover it exactly once, in order. */
  lemma PlanTilesTheFile(total: nat, parts: nat)
    requires total > 0 && parts > 0
    ensures Tiles(Plan(total, parts), 0, total)
  {
    PartsReachTheEnd(total, parts);
    PlanFromTiles(total, parts, DivCeil(total, parts), 0);
  }

  /** Four parts, or fewer if one in eight mebibytes comes to fewer. */
  lemma HowManyParts(total: nat)
    requires total > 0
    ensures var parts := PartsFor(total);
            1 <= parts <= 4 && (parts < 4 ==> total <= parts * 8_388_608) && (parts - 1) * 8_388_608 < total
  {
    PartsReachTheEnd(total, PARALLEL_DOWNLOAD_THRESHOLD_BYTES);
  }

  ghost predicate Even(ranges: seq<Range>, size: nat, total: nat) {
    forall j :: 0 <= j < |ranges| ==> ranges[j].end + 1 == Min(ranges[j].start + size, total)
  }

  lemma {:induction false} PlanFromIsEven(total: nat, parts: nat, size: nat, i: nat)
    requires i <= parts && size > 0 && total > 0
    ensures Even(PlanFrom(total, parts, size, i), size, total) && |PlanFrom(total, parts, size, i)| <= parts - i
    decreases parts - i
  {
    if i < parts {
      PlanFromIsEven(total, parts, size, i + 1);
    }
  }

  /** The parts are as even as can be: as many as asked for or fewer, all of one size but the last, which may be
      smaller; the size is the least with which they reach the end. */
  lemma PlanIsEven(total: nat, parts: nat) returns (size: nat)
    requires total > 0 && parts > 0
    ensures size * parts >= total > (size - 1) * parts
    ensures var r := Plan(total, parts);
            0 < |r| <= parts &&
            (forall j :: 0 <= j < |r| - 1 ==> r[j].end - r[j].start + 1 == size) &&
            r[|r| - 1].end - r[|r| - 1].start + 1 <= size
  {
    size := DivCeil(total, parts);
    LeastSize(total, parts);
    PlanFromIsEven(total, parts, size, 0);
    PlanTilesTheFile(total, parts);
    EvenLengths(Plan(total, parts), size, total);
  }

  lemma LeastSize(total: nat, parts: nat)
    requires total > 0 && parts > 0
    ensures var size := DivCeil(total, parts); size > 0 && size * parts >= total > (size - 1) * parts
  {
    var size := DivCeil(total, parts);
    PartsReachTheEnd(total, parts);
    assert (size - 1) * parts == parts * size - parts && size * parts == parts * size;
  }

  lemma EvenLengths(r: seq<Range>, size: nat, total: nat)
    requires Even(r, size, total) && Tiles(r, 0, total) && total > 0
    ensures |r| > 0 && r[|r| - 1].end - r[|r| - 1].start + 1 <= size
    ensures forall j :: 0 <= j < |r| - 1 ==> r[j].end - r[j].start + 1 == size
  {
    TilesStayWithin(r, 0, total);
    forall j | 0 <= j < |r| - 1 ensures r[j].end - r[j].start + 1 == size {
      TilesAreConsecutive(r, 0, total, j + 1);
    }
  }

  /** No step of the plan leaves 64 bits for any download that is not refused. */
  lemma PlanFitsU64(total: nat, i: nat)
    requires 0 < total <= MAX_DOWNLOAD_BYTES && i < PartsFor(total)
    ensures var size := DivCeil(total, PartsFor(total));
            i * size + size < total + PARALLEL_DOWNLOAD_PARTS <= U64_MAX
  {
    var parts := PartsFor(total);
    var size := DivCeil(total, parts);
    PartsReachTheEnd(total, parts);
    assert i * size + size == (i + 1) * size;
    MulMonotone(size, i + 1, parts);
  }

  // ---- Fetching and assembling --------------------------------------------------------------------------

  /** What the server answers to a `Range` request. */
  function Slice<T>(file: seq<T>, r: Range): seq<T>
    requires r.start <= r.end < |file|
  {
    file[r.start..r.end + 1]
  }

  ghost predicate Within(ranges: seq<Range>, n: nat) {
    forall i :: 0 <= i < |ranges| ==> ranges[i].start <= ranges[i].end < n
  }

  lemma {:induction false} TilesStayWithin(ranges: seq<Range>, from: nat, to: nat)
    requires Tiles(ranges, from, to)
    ensures from <= to && Within(ranges, to)
  {
    if ranges != [] {
      TilesStayWithin(ranges[1..], ranges[0].end + 1, to);
      assert forall i :: 1 <= i < |ranges| ==> ranges[i] == ranges[1..][i - 1];
    }
  }

  /** The part where the first `n` tiles stop. */
  ghost function EndOf(ranges: seq<Range>, from: nat, n: nat): nat
    requires n <= |ranges|
  {
    if n == 0 then from else ranges[n - 1].end + 1
  }

  lemma {:induction false} TilesAreConsecutive(ranges: seq<Range>, from: nat, to: nat, n: nat)
    requires Tiles(ranges, from, to) && n <= |ranges|
    ensures n < |ranges| ==> ranges[n].start == EndOf(ranges, from, n)
    ensures n == |ranges| ==> EndOf(ranges, from, n) == to
    decreases n
  {
    if n > 0 {
      TilesAreConsecutive(ranges[1..], ranges[0].end + 1, to, n - 1);
    }
  }

  /** An order in which `n` parts complete: each of them once. */
  ghost predicate Completes(order: seq<nat>, n: nat) {
    && |order| == n
    && (forall k :: 0 <= k < n ==> order[k] < n)
    && (forall j :: 0 <= j < n ==> j in order)
  }

  /** For one, they may complete one after the other. */
  lemma InOrderCompletes(n: nat)
    ensures Completes(seq(n, (i: nat) => i), n)
  {
    var order := seq(n, (i: nat) => i);
    forall j | 0 <= j < n ensures j in order {
      assert order[j] == j;
    }
  }

  /** The parts are fetched at the same time and complete in any order, each into its own scratch file. */
  method FetchParts<T>(file: seq<T>, ranges: seq<Range>, order: seq<nat>) returns (parts: seq<seq<T>>)
    requires Within(ranges, |file|) && Completes(order, |ranges|)
    ensures |parts| == |ranges| && forall j :: 0 <= j < |ranges| ==> parts[j] == Slice(file, ranges[j])
  {
    parts := seq(|ranges|, _ => []);
    for k := 0 to |order|
      invariant |parts| == |ranges|
      invariant forall j :: 0 <= j < |ranges| && j in order[..k] ==> parts[j] == Slice(file, ranges[j])
    {
      parts := parts[order[k] := Slice(file, ranges[order[k]])];
      assert order[..k + 1] == order[..k] + [order[k]];
    }
    assert order[..|order|] == order;
  }

  /** Concatenates the scratch files in order. */
  method Assemble<T>(parts: seq<seq<T>>, ghost file: seq<T>, ghost ranges: seq<Range>) returns (out: seq<T>)
    requires Tiles(ranges, 0, |file|) && Within(ranges, |file|) && |parts| == |ranges|
    requires forall j :: 0 <= j < |ranges| ==> parts[j] == Slice(file, ranges[j])
    ensures out == file
  {
    out := [];
    for i := 0 to |parts|
      invariant EndOf(ranges, 0, i) <= |file| && out == file[..EndOf(ranges, 0, i)]
    {
      TilesAreConsecutive(ranges, 0, |file|, i);
      out := out + parts[i];
    }
    TilesAreConsecutive(ranges, 0, |file|, |ranges|);
  }

  lemma SomeParts(total: nat)
    requires PARALLEL_DOWNLOAD_THRESHOLD_BYTES <= total
    ensures PartsFor(total) > 0
  {
    PartsReachTheEnd(total, PARALLEL_DOWNLOAD_THRESHOLD_BYTES);
  }

  /** What `download_parallel` asks for. */
  function RangesFor(total: nat): seq<Range> {
    if PartsFor(total) == 0 then [] else Plan(total, PartsFor(total))
  }

  /** `download_parallel` against a server that answers ranges: in whatever order the parts complete (`order` says, for
      any number of them), each goes to its own scratch file, and the files concatenated in the order of the ranges are
      the whole. */
  method DownloadParallel<T>(file: seq<T>, order: nat -> seq<nat>) returns (out: seq<T>)
    requires PARALLEL_DOWNLOAD_THRESHOLD_BYTES <= |file| && forall n: nat :: Completes(order(n), n)
    ensures out == file
  {
    SomeParts(|file|);
    var ranges := RangesFor(|file|);
    PlanTilesTheFile(|file|, PartsFor(|file|));
    TilesStayWithin(ranges, 0, |file|);
    var parts := FetchParts(file, ranges, order(|ranges|));
    out := Assemble(parts, file, ranges);
  }
}
