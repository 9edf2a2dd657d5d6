/**
 * What the reduction code emitted by the check node does to its status
 * and value buffers, with the work-items taken one after another in some
 * schedule and each item's guarded block executed as a whole:
 *
 *   if(!v && atomic_xchg(v_buffer, 1) == G){ record row, col, value }
 *
 * `atomic_xchg` stores 1 and yields the flag's previous value. The code
 * as written has G = 1; G = 0 records the first failing item of the
 * schedule.
 */
module CheckReduction {
  import opened Decimal
  import opened KernelCheck

  /** One work-item: the checked boolean at (row, col) and the argument's value there. */
  datatype WorkItem<V> = WorkItem(ok: bool, row: int, col: int, value: V)

  /** The status buffer [flag, row, col] and the value buffer (`None` while never written). */
  datatype DeviceState<V> = DeviceState(status: seq<int>, value: Option<V>)

  /** The state after construction: a zeroed status buffer and an unwritten value. */
  function Initial<V>(): DeviceState<V> {
    DeviceState([0, 0, 0], None)
  }

  /**
   * One work-item's guarded block: a passing item changes nothing; a
   * failing one sets the flag, and records its location and value only when
   * the flag's previous value equals the guard.
   */
  function Step<V>(guard: int, s: DeviceState<V>, w: WorkItem<V>): (t: DeviceState<V>)
    requires |s.status| == 3
    ensures |t.status| == 3
    ensures w.ok ==> t == s
    ensures !w.ok ==> t.status[0] == 1
    ensures !w.ok && s.status[0] == guard ==> t.status[1] == w.row && t.status[2] == w.col && t.value == Some(w.value)
    ensures !w.ok && s.status[0] != guard ==> t.status[1..] == s.status[1..] && t.value == s.value
  {
    if w.ok then s
    else if s.status[0] == guard then DeviceState([1, w.row, w.col], Some(w.value))
    else s.(status := s.status[0 := 1])
  }

  /** The work-items of one schedule, each block run whole, in order. The flag is never cleared. */
  function Run<V>(guard: int, s: DeviceState<V>, items: seq<WorkItem<V>>): (t: DeviceState<V>)
    requires |s.status| == 3
    ensures |t.status| == 3
    ensures t.status[0] == s.status[0] || t.status[0] == 1
    decreases |items|
  {
    if items == [] then s else Run(guard, Step(guard, s, items[0]), items[1..])
  }

  predicate AllOk<V>(items: seq<WorkItem<V>>) {
    forall k :: 0 <= k < |items| ==> items[k].ok
  }

  /** When every element passes, the buffers are left exactly as they were. */
  lemma {:induction false} AllOkLeavesState<V>(guard: int, s: DeviceState<V>, items: seq<WorkItem<V>>)
    requires |s.status| == 3 && AllOk(items)
    ensures Run(guard, s, items) == s
    decreases |items|
  {
    if items != [] {
      AllOkLeavesState(guard, s, items[1..]);
    }
  }

  /** The flag ends up set iff it was set already or some element fails; the same for both guards. */
  lemma {:induction false} FlagSetIffSomeFailure<V>(guard: int, s: DeviceState<V>, items: seq<WorkItem<V>>)
    requires |s.status| == 3 && (s.status[0] == 0 || s.status[0] == 1)
    ensures var t := Run(guard, s, items);
      (t.status[0] == 0 || t.status[0] == 1) &&
      (t.status[0] == 1 <==> s.status[0] == 1 || !AllOk(items))
    decreases |items|
  {
    if items != [] {
      FlagSetIffSomeFailure(guard, Step(guard, s, items[0]), items[1..]);
      if !items[0].ok {
        assert !AllOk(items);
      } else if !AllOk(items[1..]) {
        var k :| 0 <= k < |items[1..]| && !items[1..][k].ok;
        assert !items[k + 1].ok;
      } else {
        assert forall k :: 0 <= k < |items| ==> items[k].ok by {
          forall k | 0 <= k < |items| ensures items[k].ok {
            if k > 0 { assert items[k] == items[1..][k - 1]; }
          }
        }
      }
    }
  }

  /** Once the flag is 1, the intended guard never fires again and nothing is overwritten. */
  lemma {:induction false} ClaimedStaysPut<V>(s: DeviceState<V>, items: seq<WorkItem<V>>)
    requires |s.status| == 3 && s.status[0] == 1
    ensures Run(IntendedGuard, s, items) == s
    decreases |items|
  {
    if items != [] {
      assert s.status[0 := 1] == s.status;
      ClaimedStaysPut(Step(IntendedGuard, s, items[0]), items[1..]);
    }
  }

  /** With the intended guard, the first failing element of the schedule is the one recorded. */
  lemma {:induction false} IntendedRecordsFirstFailure<V>(items: seq<WorkItem<V>>, k: nat)
    requires k < |items| && !items[k].ok && AllOk(items[..k])
    ensures Run(IntendedGuard, Initial(), items) ==
      DeviceState([1, items[k].row, items[k].col], Some(items[k].value))
  {
    RunSplit(IntendedGuard, Initial(), items[..k], items[k..]);
    assert items[..k] + items[k..] == items;
    AllOkLeavesState(IntendedGuard, Initial<V>(), items[..k]);
    var recorded := DeviceState([1, items[k].row, items[k].col], Some(items[k].value));
    assert items[k..][0] == items[k];
    assert Step(IntendedGuard, Initial(), items[k]) == recorded;
    ClaimedStaysPut(recorded, items[k..][1..]);
  }

  /** With the intended guard, a reported location is that of an element that failed. */
  lemma IntendedReportsAFailure<V>(items: seq<WorkItem<V>>)
    requires !AllOk(items)
    ensures var t := Run(IntendedGuard, Initial(), items);
      t.status[0] == 1 && t.value.Some? &&
      exists k :: 0 <= k < |items| && !items[k].ok &&
        t.status[1] == items[k].row && t.status[2] == items[k].col && t.value.value == items[k].value
  {
    var k := FirstFailure(items);
    IntendedRecordsFirstFailure(items, k);
  }

  /** With the intended guard, the reported location lies within the checked shape. */
  lemma IntendedReportsInShape<V>(items: seq<WorkItem<V>>, rows: int, cols: int)
    requires !AllOk(items)
    requires forall k :: 0 <= k < |items| ==> 0 <= items[k].row < rows && 0 <= items[k].col < cols
    ensures var t := Run(IntendedGuard, Initial(), items);
      0 <= t.status[1] < rows && 0 <= t.status[2] < cols
  {
    IntendedReportsAFailure(items);
  }

  /** As written: when exactly one element fails, its location and value are never recorded. */
  lemma AsWrittenLosesSoleFailure<V>(items: seq<WorkItem<V>>, k: nat)
    requires k < |items| && !items[k].ok && AllOk(items[..k]) && AllOk(items[k + 1..])
    ensures Run(AsWrittenGuard, Initial(), items) == DeviceState([1, 0, 0], None)
  {
    RunSplit(AsWrittenGuard, Initial(), items[..k], items[k..]);
    assert items[..k] + items[k..] == items;
    AllOkLeavesState(AsWrittenGuard, Initial<V>(), items[..k]);
    assert items[k..][0] == items[k] && items[k..][1..] == items[k + 1..];
    var flagged: DeviceState<V> := DeviceState([1, 0, 0], None);
    assert Step(AsWrittenGuard, Initial(), items[k]) == flagged;
    AllOkLeavesState(AsWrittenGuard, flagged, items[k + 1..]);
  }

  /**
   * The check over the vector [1.0, NaN, 3.0] with the requirement "not
   * NaN": the code as written reports element [0, 0] with whatever the
   * unwritten value buffer holds, the intended guard element [1, 0] with
   * its value, so that the intended message closes with "] = nan, but it
   * must be <must_be>!".
   */
  lemma NaNVectorScenario(c: CheckCl<string>, unwritten: string)
    ensures var items := [WorkItem(true, 0, 0, "1"), WorkItem(false, 1, 0, "nan"), WorkItem(true, 2, 0, "3")];
      var p := c.functionName + ": " + c.errVariable + "[";
      var asWritten := Run(AsWrittenGuard, Initial(), items);
      var intended := Run(IntendedGuard, Initial(), items);
      asWritten == DeviceState([1, 0, 0], None) &&
      intended == DeviceState([1, 1, 0], Some("nan")) &&
      c.AddWriteEvent(asWritten.status, unwritten).Fail? &&
      ReportedIndices(c.AddWriteEvent(asWritten.status, unwritten).error.message[|p|..]) == Some((0, 0)) &&
      c.AddWriteEvent(intended.status, "nan").Fail? &&
      ReportedIndices(c.AddWriteEvent(intended.status, "nan").error.message[|p|..]) == Some((1, 0)) &&
      ClosesWith(c.AddWriteEvent(intended.status, "nan").error.message, "nan", c.mustBe)
  {
    var items := [WorkItem(true, 0, 0, "1"), WorkItem(false, 1, 0, "nan"), WorkItem(true, 2, 0, "3")];
    assert items[..1] == [items[0]] && items[2..] == [items[2]];
    AsWrittenLosesSoleFailure(items, 1);
    IntendedRecordsFirstFailure(items, 1);
  }

  /** Running two schedules one after the other. */
  lemma {:induction false} RunSplit<V>(guard: int, s: DeviceState<V>, xs: seq<WorkItem<V>>, ys: seq<WorkItem<V>>)
    requires |s.status| == 3
    ensures Run(guard, s, xs + ys) == Run(guard, Run(guard, s, xs), ys)
    decreases |xs|
  {
    if xs == [] {
      assert xs + ys == ys;
    } else {
      assert (xs + ys)[0] == xs[0] && (xs + ys)[1..] == xs[1..] + ys;
      RunSplit(guard, Step(guard, s, xs[0]), xs[1..], ys);
    }
  }

  /** Position of the first failing element. */
  function FirstFailure<V>(items: seq<WorkItem<V>>): (k: nat)
    requires !AllOk(items)
    ensures k < |items| && !items[k].ok && AllOk(items[..k])
    decreases |items|
  {
    if !items[0].ok then 0
    else
      var k := FirstFailure(items[1..]);
      assert items[..k + 1] == [items[0]] + items[1..][..k];
      k + 1
  }
}
