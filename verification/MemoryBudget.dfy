/** How many mutation workers fit, and how much memory a mutation run may take. */
module MemoryBudget {
  import opened Wrappers

  const MIB: nat := 1024 * 1024
  const GIB: nat := 1024 * MIB
  const COORDINATOR_BYTES: nat := 512 * MIB
  const MEMORY_ALIGNMENT: nat := 64 * 1024

  /** Memory pressure in hundredths of a percent; nothing when the telemetry is not a number. */
  datatype Pressure = Pressure(hundredths: nat) | Invalid

  datatype Sample = Sample(total: nat, available: nat, full: Pressure, some: Pressure)

  predicate Healthy(s: Sample) {
    s.full.Pressure? && s.some.Pressure? && s.full.hundredths < 100 && s.some.hundredths < 1000
  }

  function ReserveBytes(total: nat): nat {
    if total / 10 < 256 * MIB then 256 * MIB else if total / 10 > 2 * GIB then 2 * GIB else total / 10
  }

  function SaturatingSub(a: nat, b: nat): nat {
    if a < b then 0 else a - b
  }

  function Min(a: nat, b: nat): nat {
    if a < b then a else b
  }

  // ---------- workers ----------

  function Plan(s: Sample, jobs: nat, estimate: nat): Result<nat> {
    var reserve := ReserveBytes(s.total);
    if s.available < reserve || !Healthy(s) then Err
    else
      var capacity := SaturatingSub(SaturatingSub(s.available, reserve), COORDINATOR_BYTES);
      var workers := Min(if estimate == 0 then 0 else capacity / estimate, jobs);
      if workers == 0 then Err else Ok(workers)
  }

  predicate Fits(s: Sample, workers: nat, estimate: nat) {
    ReserveBytes(s.total) + COORDINATOR_BYTES + workers * estimate <= s.available
  }

  lemma QuotientFits(capacity: nat, estimate: nat, workers: nat)
    requires estimate > 0
    ensures workers <= capacity / estimate <==> workers * estimate <= capacity
  {
    var q, r := capacity / estimate, capacity % estimate;
    assert capacity == q * estimate + r;
    if workers <= q {
      MultiplyGrows(workers, q, estimate);
    } else {
      MultiplyGrows(q + 1, workers, estimate);
      assert (q + 1) * estimate == q * estimate + estimate;
    }
  }

  lemma {:induction false} MultiplyGrows(a: nat, b: nat, c: nat)
    requires a <= b
    ensures a * c <= b * c
  {
  }

  /** A plan exists exactly when the machine is not under pressure, the estimate is positive and one
      requested worker fits beside the reserve and the coordinator. */
  lemma PlanExists(s: Sample, jobs: nat, estimate: nat)
    ensures Plan(s, jobs, estimate).Ok? <==> Healthy(s) && estimate > 0 && jobs > 0 && Fits(s, 1, estimate)
  {
    if estimate > 0 {
      var capacity := SaturatingSub(SaturatingSub(s.available, ReserveBytes(s.total)), COORDINATOR_BYTES);
      QuotientFits(capacity, estimate, 1);
    }
  }

  /** The planned workers are the largest count that was requested and fits. */
  lemma PlanIsLargest(s: Sample, jobs: nat, estimate: nat, workers: nat)
    requires Plan(s, jobs, estimate).Ok?
    ensures workers <= Plan(s, jobs, estimate).value <==> workers <= jobs && Fits(s, workers, estimate)
  {
    var capacity := SaturatingSub(SaturatingSub(s.available, ReserveBytes(s.total)), COORDINATOR_BYTES);
    PlanExists(s, jobs, estimate);
    QuotientFits(capacity, estimate, workers);
  }

  // ---------- the budget ----------

  function Align(bytes: nat): nat {
    bytes / MEMORY_ALIGNMENT * MEMORY_ALIGNMENT
  }

  function Headroom(s: Sample): nat {
    SaturatingSub(s.available, ReserveBytes(s.total))
  }

  function BudgetBytes(s: Sample): Result<nat> {
    if s.available < ReserveBytes(s.total) || !Healthy(s) then Err
    else
      var bytes := Align(Min(Min(Headroom(s) / 2, s.total / 4), 8 * GIB));
      if bytes < 64 * MIB then Err else Ok(bytes)
  }

  function HighBytes(bytes: nat): nat {
    Align(bytes / 5 * 4)
  }

  /** The kernel rounds a limit up to whole pages. */
  function RoundedUp(bytes: nat, page: nat): nat
    requires page > 0
  {
    (bytes + (page - 1)) / page * page
  }

  lemma MultipleStays(page: nat, k: nat)
    requires page > 0
    ensures (k * page + (page - 1)) / page == k
  {
    var q, r := (k * page + (page - 1)) / page, (k * page + (page - 1)) % page;
    assert q * page + r == k * page + (page - 1);
    assert (q + 1) * page == q * page + page && (k + 1) * page == k * page + page;
    if q < k {
      MultiplyGrows(q + 1, k, page);
    } else if q > k {
      MultiplyGrows(k + 1, q, page);
    }
  }

  /** An aligned limit is a whole number of pages for every page size that divides the alignment. */
  lemma AlignedStays(bytes: nat, page: nat)
    requires page > 0 && MEMORY_ALIGNMENT % page == 0
    ensures RoundedUp(Align(bytes), page) == Align(bytes)
  {
    var k, pages := bytes / MEMORY_ALIGNMENT, MEMORY_ALIGNMENT / page;
    assert MEMORY_ALIGNMENT == pages * page;
    assert k * (pages * page) == (k * pages) * page;
    MultipleStays(page, k * pages);
  }

  lemma AlignDown(bytes: nat)
    ensures Align(bytes) <= bytes
  {
  }

  /** After the kernel's rounding a sampled budget still keeps within half the headroom, a quarter of
      the memory and eight gibibytes, and the mark at which it slows down within four fifths of it. */
  lemma BudgetStaysWithin(s: Sample, page: nat)
    requires BudgetBytes(s).Ok? && page > 0 && MEMORY_ALIGNMENT % page == 0
    ensures var bytes := BudgetBytes(s).value;
            && 64 * MIB <= RoundedUp(bytes, page) <= 8 * GIB
            && 2 * RoundedUp(bytes, page) <= Headroom(s) && 4 * RoundedUp(bytes, page) <= s.total
            && 5 * RoundedUp(HighBytes(bytes), page) <= 4 * bytes
  {
    var bytes := BudgetBytes(s).value;
    AlignedStays(Min(Min(Headroom(s) / 2, s.total / 4), 8 * GIB), page);
    AlignedStays(bytes / 5 * 4, page);
    AlignDown(Min(Min(Headroom(s) / 2, s.total / 4), 8 * GIB));
    AlignDown(bytes / 5 * 4);
  }

  // ---------- in numbers ----------

  /** A tenth of the memory, but no less than 256 mebibytes and no more than two gibibytes. */
  predicate IsReserve(total: nat, reserve: nat) {
    && 268435456 <= reserve <= 2147483648
    && (10 * reserve <= total < 10 * reserve + 10 || (reserve == 268435456 && total < 2684354560) ||
        (reserve == 2147483648 && total >= 21474836480))
  }

  lemma ReserveTells(total: nat)
    ensures IsReserve(total, ReserveBytes(total))
  {
  }

  /** Waiting for memory takes less than one percent of the time for all tasks, and less than ten for some. */
  lemma HealthyTells(full: nat, some: nat, total: nat, available: nat)
    ensures Healthy(Sample(total, available, Pressure(full), Pressure(some))) <==> full < 100 && some < 1000
    ensures !Healthy(Sample(total, available, Invalid, Pressure(some)))
    ensures !Healthy(Sample(total, available, Pressure(full), Invalid))
  {
  }

  /** As many workers are planned as were asked for and fit beside the reserve and the 512 mebibytes of the
      coordinator; none is an error, and so is pressure. */
  lemma PlanTells(s: Sample, jobs: nat, estimate: nat, reserve: nat, workers: nat)
    requires IsReserve(s.total, reserve) && estimate > 0
    ensures Plan(s, jobs, estimate).Ok? && workers <= Plan(s, jobs, estimate).value && workers > 0 <==>
            Healthy(s) && 0 < workers <= jobs && reserve + 536870912 + workers * estimate <= s.available
  {
    ReserveTells(s.total);
    PlanExists(s, jobs, estimate);
    if Plan(s, jobs, estimate).Ok? {
      PlanIsLargest(s, jobs, estimate, workers);
    } else if workers > 0 {
      MultiplyGrows(1, workers, estimate);
    }
  }

  /** What the limit keeps within: half of what is available beside the reserve, a quarter of the memory, and
      eight gibibytes. */
  predicate Within(s: Sample, reserve: nat, bytes: nat) {
    reserve + 2 * bytes <= s.available && 4 * bytes <= s.total && bytes <= 8589934592
  }

  lemma AlignTells(bytes: nat, k: nat)
    ensures k * 65536 <= bytes <==> k * 65536 <= Align(bytes)
    ensures exists units: nat :: Align(bytes) == units * 65536
  {
    assert Align(bytes) == (bytes / 65536) * 65536;
  }

  /** The limit is the largest multiple of 64 kibibytes within these bounds; there is none under pressure,
      without the reserve, or when less than 64 mebibytes would be left. */
  lemma BudgetTells(s: Sample, reserve: nat, units: nat)
    requires IsReserve(s.total, reserve)
    ensures BudgetBytes(s).Ok? <==> Healthy(s) && Within(s, reserve, 67108864)
    ensures BudgetBytes(s).Ok? ==> exists k: nat :: BudgetBytes(s).value == k * 65536
    ensures BudgetBytes(s).Ok? ==> (units * 65536 <= BudgetBytes(s).value <==> Within(s, reserve, units * 65536))
  {
    ReserveTells(s.total);
    var bytes := Min(Min(Headroom(s) / 2, s.total / 4), 8 * GIB);
    AlignTells(bytes, units);
    AlignTells(bytes, 1024);
  }

  /** The mark at which a run slows down is the largest multiple of 64 kibibytes within four fifths, taken of
      whole fifths. */
  lemma HighTells(bytes: nat, units: nat)
    ensures units * 65536 <= HighBytes(bytes) <==> units * 65536 <= 4 * (bytes / 5)
    ensures exists k: nat :: HighBytes(bytes) == k * 65536
  {
    AlignTells(bytes / 5 * 4, units);
  }
}
