/**
 * The addressable LED strip the component drives. Only its interface is
 * modelled: a fixed size and the log of what it was asked to do, pixel
 * writes (`get(i).set(c)`) and refresh requests (`schedule_show()`), in order.
 */
module LedDriver {
  import opened ColorMath

  datatype Option<T> = None | Some(value: T)

  datatype StripOp =
    | PixelSet(index: int, color: Color)
    | ShowRequest

  class Strip {
    /** `size()`: the number of pixels. */
    const size: nat
    /** Everything the strip was asked to do, oldest first. */
    var log: seq<StripOp>

    constructor (size: nat)
      ensures this.size == size && log == []
    {
      this.size := size;
      log := [];
    }

    /** `get(index).set(color)`. */
    method Set(index: int, color: Color)
      modifies this
      ensures log == old(log) + [PixelSet(index, color)]
    {
      log := log + [PixelSet(index, color)];
    }

    /** `schedule_show()`. */
    method ScheduleShow()
      modifies this
      ensures log == old(log) + [ShowRequest]
    {
      log := log + [ShowRequest];
    }
  }

  /** The colour most recently written to pixel `index`, if any. */
  function LastSet(log: seq<StripOp>, index: int): Option<Color> {
    if log == [] then None
    else match log[|log| - 1]
      case PixelSet(i, c) => if i == index then Some(c) else LastSet(log[..|log| - 1], index)
      case ShowRequest => LastSet(log[..|log| - 1], index)
  }

  /** `n` copies of one operation. */
  function Repeat(op: StripOp, n: nat): (ops: seq<StripOp>)
    ensures |ops| == n && forall i | 0 <= i < n :: ops[i] == op
  {
    if n == 0 then [] else Repeat(op, n - 1) + [op]
  }

  /** After more operations, a pixel shows the later write if there is one, else the earlier. */
  lemma {:induction false} LastSetConcat(a: seq<StripOp>, b: seq<StripOp>, index: int)
    ensures LastSet(a + b, index) == if LastSet(b, index).Some? then LastSet(b, index) else LastSet(a, index)
  {
    if b != [] {
      assert (a + b)[..|a + b| - 1] == a + b[..|b| - 1];
      LastSetConcat(a, b[..|b| - 1], index);
    } else {
      assert a + b == a;
    }
  }

  /** Operations that never write pixel `index` leave what it shows alone. */
  lemma {:induction false} LastSetUntouched(ops: seq<StripOp>, index: int)
    requires forall k | 0 <= k < |ops| :: !(ops[k].PixelSet? && ops[k].index == index)
    ensures LastSet(ops, index) == None
  {
    if ops != [] {
      LastSetUntouched(ops[..|ops| - 1], index);
    }
  }
}
