/** The thread-number bookkeeping of `Utils.MultithreadingJobsHandler`
    (TerrainGen/Utilities/MultithreadingJobsHandler.cs): a `bool[]` whose
    slot i is true while thread number i is in use, and the parameter
    array a job hands to its delegate. */
module JobsHandler {
  import opened Numerics
  import opened Failures

  /** `GetMaxCurrentThreads`: one processor is left to the main thread, and
      one more when more than four would remain. */
  function GetMaxCurrentThreads(processorCount: Int32): (r: int)
    requires processorCount >= 1
    ensures 0 <= r < processorCount
    ensures processorCount <= 5 ==> r == processorCount - 1
    ensures processorCount > 5 ==> r == processorCount - 2 && r >= 4
  {
    var threadCount := processorCount - 1;
    if threadCount > 4 then threadCount - 1 else threadCount
  }

  /** More processors never mean fewer threads. */
  lemma GetMaxCurrentThreadsMonotonic(p: Int32, q: Int32)
    requires 1 <= p <= q
    ensures GetMaxCurrentThreads(p) <= GetMaxCurrentThreads(q)
  {
  }

  /** The number of slots of s that are in use. */
  function CountTrue(s: seq<bool>): (n: nat)
    ensures n <= |s|
  {
    if |s| == 0 then 0 else CountTrue(s[..|s| - 1]) + (if s[|s| - 1] then 1 else 0)
  }

  /** Counting a sequence split in two counts both parts. */
  lemma {:induction false} CountTrueAppend(s: seq<bool>, t: seq<bool>)
    ensures CountTrue(s + t) == CountTrue(s) + CountTrue(t)
    decreases |t|
  {
    if |t| == 0 {
      assert s + t == s;
    } else {
      assert (s + t)[..|s + t| - 1] == s + t[..|t| - 1];
      CountTrueAppend(s, t[..|t| - 1]);
    }
  }

  /** Setting slot i to b changes the count by the difference at i. */
  lemma CountTrueUpdate(s: seq<bool>, i: nat, b: bool)
    requires i < |s|
    ensures CountTrue(s[i := b]) + (if s[i] then 1 else 0) == CountTrue(s) + (if b then 1 else 0)
  {
    var pre, post := s[..i], s[i + 1..];
    assert s == pre + [s[i]] + post;
    assert s[i := b] == pre + [b] + post;
    CountTrueAppend(pre + [s[i]], post);
    CountTrueAppend(pre, [s[i]]);
    CountTrueAppend(pre + [b], post);
    CountTrueAppend(pre, [b]);
    assert CountTrue([s[i]]) == (if s[i] then 1 else 0) by { assert [s[i]][..0] == []; }
    assert CountTrue([b]) == (if b then 1 else 0) by { assert [b][..0] == []; }
  }

  /** Every slot is in use exactly when the count reaches the length. */
  lemma {:induction false} CountTrueFull(s: seq<bool>)
    ensures CountTrue(s) == |s| <==> false !in s
  {
    if |s| > 0 {
      var init := s[..|s| - 1];
      CountTrueFull(init);
      assert s == init + [s[|s| - 1]];
      assert false in s <==> false in init || !s[|s| - 1];
    }
  }

  /** The index ReserveThreadNumber picks: the lowest free slot, or -1. */
  function FirstFree(s: seq<bool>): (i: int)
    ensures -1 <= i < |s|
    ensures i == -1 <==> false !in s
    ensures i >= 0 ==> !s[i] && forall k :: 0 <= k < i ==> s[k]
    decreases |s|
  {
    if |s| == 0 then -1
    else if !s[0] then 0
    else
      var j := FirstFree(s[1..]);
      if j == -1 then -1 else j + 1
  }

  /** Reserving a free slot raises the count by one. */
  lemma ReserveRaisesCount(s: seq<bool>)
    requires false in s
    ensures CountTrue(s[FirstFree(s) := true]) == CountTrue(s) + 1
  {
    CountTrueUpdate(s, FirstFree(s), true);
  }

  /** Releasing a slot in use lowers the count by one. */
  lemma ReleaseLowersCount(s: seq<bool>, j: nat)
    requires j < |s| && s[j]
    ensures CountTrue(s[j := false]) == CountTrue(s) - 1
  {
    CountTrueUpdate(s, j, false);
  }

  /** The static state of the handler: `_threadNumbers`. */
  class ThreadNumbers {
    var threadNumbers: array<bool>

    /** The static constructor: one free slot per usable thread. */
    constructor (processorCount: Int32)
      requires processorCount >= 1
      ensures threadNumbers.Length == GetMaxCurrentThreads(processorCount)
      ensures forall i :: 0 <= i < threadNumbers.Length ==> !threadNumbers[i]
      ensures fresh(threadNumbers)
    {
      threadNumbers := new bool[GetMaxCurrentThreads(processorCount)](i => false);
    }

    /** `CurrentThreadsAmount`: the number of slots in use. */
    method CurrentThreadsAmount() returns (counter: int)
      ensures counter == CountTrue(threadNumbers[..])
    {
      counter := 0;
      var i := 0;
      while i < threadNumbers.Length
        invariant 0 <= i <= threadNumbers.Length
        invariant counter == CountTrue(threadNumbers[..i])
      {
        assert threadNumbers[..i + 1][..i] == threadNumbers[..i];
        if threadNumbers[i] == true {
          counter := counter + 1;
        }
        i := i + 1;
      }
      assert threadNumbers[..i] == threadNumbers[..];
    }

    /** `ReserveThreadNumber`: takes the lowest free slot and reports it, or
        reports -1 and changes nothing when every slot is in use. */
    method ReserveThreadNumber() returns (found: bool, reserveNumber: int)
      modifies threadNumbers
      ensures found <==> false in old(threadNumbers[..])
      ensures reserveNumber == FirstFree(old(threadNumbers[..]))
      ensures found ==> threadNumbers[..] == old(threadNumbers[..])[reserveNumber := true]
      ensures !found ==> threadNumbers[..] == old(threadNumbers[..])
    {
      var i := 0;
      while i < threadNumbers.Length
        invariant 0 <= i <= threadNumbers.Length
        invariant forall k :: 0 <= k < i ==> threadNumbers[k]
        invariant threadNumbers[..] == old(threadNumbers[..])
      {
        if threadNumbers[i] == false {
          threadNumbers[i] := true;
          return true, i;
        } else if i == threadNumbers.Length - 1 {
          return false, -1;
        }
        i := i + 1;
      }
      return false, -1;
    }

    /** `UnReserveThreadNumber`: marks slot jobNumber free; an index outside
        the array throws and changes nothing. */
    method UnReserveThreadNumber(jobNumber: int) returns (r: Result<()>)
      modifies threadNumbers
      ensures r.Ok? <==> 0 <= jobNumber < threadNumbers.Length
      ensures r.Err? ==> r.error == IndexOutOfRangeException
      ensures r.Ok? ==> threadNumbers[..] == old(threadNumbers[..])[jobNumber := false]
      ensures r.Err? ==> threadNumbers[..] == old(threadNumbers[..])
    {
      if 0 <= jobNumber < threadNumbers.Length {
        threadNumbers[jobNumber] := false;
        r := Ok(());
      } else {
        r := Err(IndexOutOfRangeException);
      }
    }
  }

  /** A C# `object` as it occurs in a job's parameter array: a boxed `int`
      such as the thread number, or some other object of the caller's. */
  datatype Boxed<T> = BoxedInt(number: Int32) | Reference(target: T)

  /** `MultithreadingJob`: a delegate, its parameters and the thread number
      it will run under. */
  class MultithreadingJob<D, T> {
    var job: D
    var jobParameters: array<Boxed<T>>
    var threadNumber: Int32

    constructor (funcOtherThread: D, funcOtherThreadParameters: array<Boxed<T>>)
      ensures job == funcOtherThread && jobParameters == funcOtherThreadParameters && threadNumber == 0
    {
      job, jobParameters, threadNumber := funcOtherThread, funcOtherThreadParameters, 0;
    }

    /** `AddJobNumber`. */
    method AddJobNumber(number: Int32)
      modifies this
      ensures threadNumber == number
      ensures job == old(job) && jobParameters == old(jobParameters)
    {
      threadNumber := number;
    }

    /** `AddJobNumberToJobParameters`: a new array holding the thread number
        followed by the parameters, which are left as they were. */
    method AddJobNumberToJobParameters() returns (temp: array<Boxed<T>>)
      ensures fresh(temp)
      ensures temp.Length == jobParameters.Length + 1
      ensures temp[0] == BoxedInt(threadNumber)
      ensures forall i :: 0 <= i < jobParameters.Length ==> temp[i + 1] == jobParameters[i]
      ensures temp[..] == [BoxedInt(threadNumber)] + jobParameters[..]
    {
      var number := threadNumber;
      temp := new Boxed<T>[jobParameters.Length + 1](i => BoxedInt(number));
      forall i | 0 <= i < jobParameters.Length {
        temp[i + 1] := jobParameters[i];
      }
      assert temp[..] == [BoxedInt(threadNumber)] + jobParameters[..];
    }
  }
}
