/** The numeric plan of a Cake Package: how many Slices a source has, which byte
    range each of them covers, and which uniform Slice size yields a wanted count. */
module SliceArithmetic {
  import opened Wrappers

  const MAX_SAFE_INTEGER: nat := 9_007_199_254_740_991
  const MAX_SLICE_COUNT: nat := 50_000
  const U64_LIMIT: nat := 0x1_0000_0000_0000_0000

  function Min(a: nat, b: nat): nat {
    if a <= b then a else b
  }

  function ExpectedSliceCount(size: nat, target: nat): nat {
    if size == 0 || target == 0 then 0 else 1 + (size - 1) / target
  }

  /** The closed-form plan: Slice `index` (one-based) starts here ... */
  function PlanOffset(target: nat, index: nat): nat
    requires index >= 1
  {
    (index - 1) * target
  }

  /** ... and has this many bytes. */
  function PlanSize(size: nat, target: nat, index: nat): nat
    requires index >= 1
  {
    var offset := PlanOffset(target, index);
    Min(if size >= offset then size - offset else 0, target)
  }

  datatype PlanError =
    | UnsafeInteger
    | InvalidSliceSize
    | SliceLimit(actual: nat)
    | IndexOutsidePlan
    | OffsetOverflow
    | OffsetExceedsSource

  /** `planned_slice_range`, with the two checked operations on 64-bit integers kept as branches. */
  function PlannedSliceRange(size: nat, target: nat, index: nat): Result<(nat, nat), PlanError> {
    if size > MAX_SAFE_INTEGER then Err(UnsafeInteger)
    else if target == 0 || target > MAX_SAFE_INTEGER then Err(InvalidSliceSize)
    else
      var count := ExpectedSliceCount(size, target);
      if count > MAX_SLICE_COUNT then Err(SliceLimit(count))
      else if index == 0 || index > count then Err(IndexOutsidePlan)
      else
        var offset := PlanOffset(target, index);
        if offset >= U64_LIMIT then Err(OffsetOverflow)
        else if offset > size then Err(OffsetExceedsSource)
        else Ok((offset, Min(size - offset, target)))
  }

  lemma DivisionBounds(a: nat, b: nat)
    requires b > 0
    ensures (a / b) * b <= a < (a / b + 1) * b
  {
    assert a == (a / b) * b + a % b;
  }

  lemma MultiplyMonotone(a: nat, b: nat, c: nat)
    requires a <= b
    ensures a * c <= b * c
  {
  }

  /** The count is the ceiling of size / target, stated without division: it is the only number
      of target-sized ranges that covers the source with none of them empty. */
  lemma CountIsExactCover(size: nat, target: nat, count: nat)
    requires size > 0 && target > 0
    ensures count == ExpectedSliceCount(size, target)
        <==> count >= 1 && (count - 1) * target < size <= count * target
  {
    var q := (size - 1) / target;
    DivisionBounds(size - 1, target);
    if count >= 1 && (count - 1) * target < size <= count * target {
      if count - 1 < q {
        MultiplyMonotone(count, q, target);
      } else if count - 1 > q {
        MultiplyMonotone(q + 1, count - 1, target);
      }
    }
  }

  /** Every planned range is nonempty and inside the source; only the last may be short. */
  lemma PlanWithinSource(size: nat, target: nat, index: nat)
    requires target > 0 && 1 <= index <= ExpectedSliceCount(size, target)
    ensures PlanOffset(target, index) < size
    ensures 1 <= PlanSize(size, target, index) <= target
    ensures index < ExpectedSliceCount(size, target) ==> PlanSize(size, target, index) == target
    ensures PlanOffset(target, index) + PlanSize(size, target, index)
         == if index == ExpectedSliceCount(size, target) then size else PlanOffset(target, index + 1)
  {
    var count := ExpectedSliceCount(size, target);
    CountIsExactCover(size, target, count);
    MultiplyMonotone(index - 1, count - 1, target);
    assert index * target == (index - 1) * target + target;
    if index < count {
      MultiplyMonotone(index, count - 1, target);
    }
  }

  /** `planned_slice_range` answers the closed form exactly for the indexes of a legal plan; its
      overflow and underflow branches are never taken. */
  lemma PlannedRangeIsClosedForm(size: nat, target: nat, index: nat)
    ensures PlannedSliceRange(size, target, index) != Err(OffsetOverflow)
    ensures PlannedSliceRange(size, target, index) != Err(OffsetExceedsSource)
    ensures PlannedSliceRange(size, target, index).Ok?
        <==> && size <= 9_007_199_254_740_991 && 1 <= target <= 9_007_199_254_740_991
             && ExpectedSliceCount(size, target) <= 50_000
             && 1 <= index <= ExpectedSliceCount(size, target)
    ensures PlannedSliceRange(size, target, index).Ok?
        ==> PlannedSliceRange(size, target, index).value
              == (PlanOffset(target, index), PlanSize(size, target, index))
  {
    if target > 0 && 1 <= index <= ExpectedSliceCount(size, target) {
      PlanWithinSource(size, target, index);
    }
  }

  ghost predicate Covers(size: nat, target: nat, index: nat, position: nat) {
    && 1 <= index <= ExpectedSliceCount(size, target)
    && PlanOffset(target, index) <= position < PlanOffset(target, index) + PlanSize(size, target, index)
  }

  /** The ranges partition the source: a position lies in exactly one of them. */
  lemma RangesPartitionSource(size: nat, target: nat, position: nat)
    requires target > 0
    ensures position < size ==> Covers(size, target, position / target + 1, position)
    ensures forall index: nat :: Covers(size, target, index, position)
              ==> position < size && index == position / target + 1
  {
    hide ExpectedSliceCount, PlanOffset, PlanSize;
    if position < size {
      QuotientCovers(size, target, position);
    }
    forall index: nat | Covers(size, target, index, position)
      ensures position < size && index == position / target + 1
    {
      CoverIsQuotient(size, target, index, position);
    }
  }

  lemma QuotientCovers(size: nat, target: nat, position: nat)
    requires target > 0 && position < size
    ensures Covers(size, target, position / target + 1, position)
  {
    hide ExpectedSliceCount;
    var index, count := position / target + 1, ExpectedSliceCount(size, target);
    DivisionBounds(position, target);
    assert (index - 1) * target <= position < index * target;
    CountIsExactCover(size, target, count);
    if index > count {
      MultiplyMonotone(count, index - 1, target);
    }
    PlanWithinSource(size, target, index);
  }

  lemma CoverIsQuotient(size: nat, target: nat, index: nat, position: nat)
    requires target > 0 && Covers(size, target, index, position)
    ensures position < size && index == position / target + 1
  {
    hide ExpectedSliceCount;
    PlanWithinSource(size, target, index);
    assert index * target == (index - 1) * target + target;
    QuotientIsUnique(position, target, index - 1);
  }

  lemma QuotientIsUnique(a: nat, b: nat, q: nat)
    requires b > 0 && q * b <= a < (q + 1) * b
    ensures q == a / b
  {
    DivisionBounds(a, b);
    if q < a / b {
      MultiplyMonotone(q + 1, a / b, b);
    } else if q > a / b {
      MultiplyMonotone(a / b + 1, q, b);
    }
  }

  datatype CountError =
    | EmptySource
    | CountExceedsBytes
    | NotRepresentable

  /** Ceiling division, as `u64::div_ceil` computes it. */
  function DivCeil(a: nat, b: nat): nat
    requires b > 0
  {
    if a % b == 0 then a / b else a / b + 1
  }

  lemma DivCeilBounds(a: nat, b: nat)
    requires a > 0 && b > 0
    ensures DivCeil(a, b) >= 1 && (DivCeil(a, b) - 1) * b < a <= DivCeil(a, b) * b
  {
    DivisionBounds(a, b);
    assert a == (a / b) * b + a % b;
    assert (a / b + 1) * b == (a / b) * b + b;
    if a % b == 0 {
      assert (a / b - 1) * b == (a / b) * b - b;
    }
  }

  /** `slice_size_for_count`. A zero count divides by zero in the original, so callers exclude it. */
  function SliceSizeForCount(size: nat, count: nat): Result<nat, CountError>
    requires count >= 1
  {
    if size == 0 then Err(EmptySource)
    else if count > size then Err(CountExceedsBytes)
    else
      var target := DivCeil(size, count);
      if ExpectedSliceCount(size, target) != count then Err(NotRepresentable) else Ok(target)
  }

  /** Sound and complete: an answer yields exactly the wanted count and is the smallest size that
      does, and a refusal means that no uniform Slice size at all yields that count. */
  lemma SliceSizeForCountIsExact(size: nat, count: nat)
    requires count >= 1
    ensures SliceSizeForCount(size, count).Ok?
        <==> exists target :: target > 0 && ExpectedSliceCount(size, target) == count
    ensures SliceSizeForCount(size, count).Ok?
        ==> var target := SliceSizeForCount(size, count).value;
            && target > 0 && ExpectedSliceCount(size, target) == count
            && forall other :: 0 < other < target ==> ExpectedSliceCount(size, other) != count
  {
    if size == 0 {
    } else if count > size {
      forall target | target > 0
        ensures ExpectedSliceCount(size, target) != count
      {
        CountIsExactCover(size, target, ExpectedSliceCount(size, target));
        MultiplyMonotone(1, target, ExpectedSliceCount(size, target) - 1);
      }
    } else {
      var target := DivCeil(size, count);
      DivCeilBounds(size, count);
      CountIsExactCover(size, target, count);
      forall other | other > 0 && ExpectedSliceCount(size, other) == count
        ensures other >= target && ExpectedSliceCount(size, target) == count
      {
        SmallestTarget(size, count, target, other);
      }
    }
  }

  lemma SmallestTarget(size: nat, count: nat, target: nat, other: nat)
    requires size > 0 && count >= 1 && target == DivCeil(size, count)
    requires other > 0 && ExpectedSliceCount(size, other) == count
    ensures other >= target && ExpectedSliceCount(size, target) == count
  {
    hide DivCeil, ExpectedSliceCount;
    DivCeilBounds(size, count);
    CountIsExactCover(size, other, count);
    if other < target {
      MultiplyMonotone(other, target - 1, count);
    }
    MultiplyMonotone(target, other, count - 1);
    CountIsExactCover(size, target, count);
  }
}
