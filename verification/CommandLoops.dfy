/** The loops of the command parser. */
module CommandLoops {
  import opened Wrappers
  import opened Bytes
  import opened Text
  import opened Resp
  import opened RespStream
  import opened Commands

  /** Unwraps the items of a command frame, stopping at the first that is not a bulk string. */
  method CollectArgs(items: seq<Frame>) returns (r: CommandResult<seq<Arg>>)
    ensures r == ArgsOf(items)
  {
    var args: seq<Arg> := [];
    for i := 0 to |items|
      invariant ArgsOf(items[..i]) == Ok(args)
    {
      assert items[..i + 1][..i] == items[..i];
      match items[i] {
        case Bulk(b) => args := args + [b];
        case NullBulk =>
          ArgsOfError(items, i);
          return Err(InvalidArgument);
        case _ =>
          ArgsOfError(items, i);
          return Err(NotAnArray);
      }
    }
    assert items[..|items|] == items;
    return Ok(args);
  }

  /** The first bad item decides. */
  lemma {:induction false} ArgsOfError(items: seq<Frame>, i: nat)
    requires i < |items| && ArgsOf(items[..i + 1]).Err?
    ensures ArgsOf(items) == ArgsOf(items[..i + 1])
    decreases |items|
  {
    if i + 1 < |items| {
      var init := items[..|items| - 1];
      assert init[..i + 1] == items[..i + 1];
      ArgsOfError(init, i);
    } else {
      assert items[..i + 1] == items;
    }
  }

  /** Upper-cases the verb in a 32-byte buffer. */
  method VerbBuffer(arg: Arg) returns (text: Arg)
    ensures text == Uppercase(VerbPrefix(arg))
  {
    var buffer := new Byte[32](_ => 0);
    var n := if |arg| < 32 then |arg| else 32;
    for i := 0 to n
      invariant forall k | 0 <= k < i :: buffer[k] == arg[k]
    {
      buffer[i] := arg[i];
    }
    for i := 0 to n
      invariant forall k | 0 <= k < i :: buffer[k] == Upper(arg[k])
      invariant forall k | i <= k < n :: buffer[k] == arg[k]
    {
      buffer[i] := Upper(buffer[i]);
    }
    text := buffer[..n];
  }

  method PutOptionLoop(args: seq<Arg>) returns (r: CommandResult<PutOptions>)
    requires |args| >= 4
    ensures r == ReadPutOptions(args, 4, NO_PUT_OPTIONS)
  {
    var i, o := 4, NO_PUT_OPTIONS;
    while i < |args|
      invariant 4 <= i <= |args|
      invariant ReadPutOptions(args, i, o) == ReadPutOptions(args, 4, NO_PUT_OPTIONS)
    {
      var k := PutOptionOf(args[i]);
      if k.None? {
        return Err(InvalidArgument);
      } else if k.value == Nx {
        i, o := i + 1, o.(nx := true);
      } else if k.value == Xx {
        i, o := i + 1, o.(xx := true);
      } else {
        if i + 1 == |args| {
          return Err(InvalidArgument);
        }
        var next := SetNumber(o, k.value, args[i + 1]);
        if next.Err? {
          return next;
        }
        i, o := i + 2, next.value;
      }
    }
    return Ok(o);
  }

  method ScanOptionLoop(args: seq<Arg>) returns (r: CommandResult<ScanOptions>)
    requires |args| >= 4
    ensures r == ReadScanOptions(args, 4, NO_SCAN_OPTIONS)
  {
    var i, o := 4, NO_SCAN_OPTIONS;
    while i < |args|
      invariant 4 <= i <= |args|
      invariant ReadScanOptions(args, i, o) == ReadScanOptions(args, 4, NO_SCAN_OPTIONS)
    {
      var isMatch, isCount := Is(args[i], Ascii("MATCH")), Is(args[i], Ascii("COUNT"));
      if (!isMatch && !isCount) || i + 1 == |args| {
        return Err(InvalidArgument);
      } else if isMatch {
        if o.matchPattern.Some? {
          return Err(ConflictingOptions);
        }
        o := o.(matchPattern := Some(args[i + 1]));
      } else {
        if o.count.Some? {
          return Err(ConflictingOptions);
        }
        var n := ParseInt(args[i + 1], 0, U32_MAX);
        if n.None? {
          return Err(InvalidArgument);
        }
        o := o.(count := n);
      }
      i := i + 2;
    }
    return Ok(o);
  }

  method HelloLoop(args: seq<Arg>, start: nat, version: Option<U32>) returns (r: CommandResult<HelloArgs>)
    requires start <= |args|
    ensures r == ReadHelloClauses(args, start, NO_HELLO.(protocolVersion := version))
  {
    var i, h := start, NO_HELLO.(protocolVersion := version);
    while i < |args|
      invariant start <= i <= |args|
      invariant ReadHelloClauses(args, i, h)
             == ReadHelloClauses(args, start, NO_HELLO.(protocolVersion := version))
    {
      if Is(args[i], Ascii("AUTH")) {
        if i + 2 >= |args| {
          return Err(InvalidArgument);
        }
        i, h := i + 3, h.(auth := Some(HelloAuth(Some(args[i + 1]), args[i + 2])));
      } else if Is(args[i], Ascii("SETNAME")) {
        if i + 1 == |args| {
          return Err(InvalidArgument);
        }
        i, h := i + 2, h.(clientName := Some(args[i + 1]));
      } else {
        return Err(InvalidArgument);
      }
    }
    return Ok(h);
  }
}
