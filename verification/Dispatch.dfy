/** The command table of the UART console: sorting it by length and dispatching to the longest command that matches. */
module Dispatch {
  import opened Prelude
  import opened TextUtils

  datatype Command = Command(cmd: string, length: nat)

  /** The lengths are right and no command occurs twice. */
  ghost predicate Correct(table: seq<Command>) {
    && (forall i :: 0 <= i < |table| ==> table[i].length == |table[i].cmd| && NulFree(table[i].cmd))
    && (forall i, j :: 0 <= i < j < |table| ==> table[i].cmd != table[j].cmd)
  }

  /** uart_cmd_table. */
  const UART_COMMANDS: seq<Command> := [
    Command("help", 4), Command("set", 3), Command("get", 3), Command("ls", 2), Command("rm", 2), Command("tail", 4),
    Command("net activate", 12), Command("net deactivate", 14), Command("net status", 10), Command("sms", 3),
    Command("sms ls", 6), Command("sms rm", 6), Command("location", 8), Command("restart", 7)]

  lemma {:induction false} UartLengthsRight()
    ensures |UART_COMMANDS| == 14
    ensures forall i :: 0 <= i < 14 ==>
              UART_COMMANDS[i].length == |UART_COMMANDS[i].cmd| && NulFree(UART_COMMANDS[i].cmd)
  {
  }

  /** Commands of the same length differ in their first, second or fifth byte. */
  lemma {:induction false} UartCommandsDiffer()
    ensures |UART_COMMANDS| == 14
    ensures forall i, j :: 0 <= i < j < 14 ==> UART_COMMANDS[i].cmd != UART_COMMANDS[j].cmd
  {
    forall i, j | 0 <= i < j < 14 ensures UART_COMMANDS[i].cmd != UART_COMMANDS[j].cmd {
      var c, d := UART_COMMANDS[i].cmd, UART_COMMANDS[j].cmd;
      assert |c| != |d| || c[0] != d[0] || c[1] != d[1] || c[4] != d[4];
    }
  }

  lemma {:induction false} UartCommandsCorrect()
    ensures Correct(UART_COMMANDS)
  {
    hide UART_COMMANDS;
    UartLengthsRight();
    UartCommandsDiffer();
  }

  /** The command is a prefix of the input that ends at a space or at the end. */
  predicate Matches(input: string, cmd: string) {
    cmd <= input && (|input| == |cmd| || input[|cmd|] == ' ')
  }

  /** That is: the command alone, or the command, a space and any rest. */
  lemma {:induction false} MatchesMeans(input: string, cmd: string)
    ensures Matches(input, cmd) <==> input == cmd || exists rest: string :: input == cmd + " " + rest
  {
    if Matches(input, cmd) && input != cmd {
      assert input == cmd + " " + input[|cmd| + 1..];
    }
  }

  /** The i-th command matches, and every other command that matches is shorter. */
  ghost predicate Longest(table: seq<Command>, input: string, i: nat) {
    && i < |table| && Matches(input, table[i].cmd)
    && forall j :: 0 <= j < |table| && j != i && Matches(input, table[j].cmd) ==> |table[j].cmd| < |table[i].cmd|
  }

  /** There is one longest match at most: the order of commands of the same length does not matter. */
  lemma {:induction false} LongestUnique(table: seq<Command>, input: string, i: nat, j: nat)
    requires Longest(table, input, i) && Longest(table, input, j)
    ensures i == j
  {
  }

  /** Two matching commands of the same length are the same. */
  lemma {:induction false} MatchesDiffer(table: seq<Command>, input: string, i: nat, j: nat)
    requires Correct(table) && i < |table| && j < |table| && i != j
    requires Matches(input, table[i].cmd) && Matches(input, table[j].cmd)
    ensures |table[i].cmd| != |table[j].cmd|
  {
    assert table[i].cmd == input[..|table[i].cmd|];
    assert table[j].cmd == input[..|table[j].cmd|];
    assert table[i].cmd != table[j].cmd;
  }

  /** The array holds every index of the table exactly once. */
  ghost predicate Permutation(idx: seq<nat>, n: nat) {
    && |idx| == n && (forall k :: 0 <= k < n ==> idx[k] < n)
    && (forall j, k :: 0 <= j < k < n ==> idx[j] != idx[k])
    && (forall i :: 0 <= i < n ==> i in idx)
  }

  /** Longer commands come first. */
  ghost predicate Descending(table: seq<Command>, idx: seq<nat>)
    requires forall k :: 0 <= k < |idx| ==> idx[k] < |table|
  {
    forall j, k :: 0 <= j < k < |idx| ==> table[idx[j]].length >= table[idx[k]].length
  }

  lemma {:induction false} SwapPermutes(idx: seq<nat>, n: nat, i: nat, j: nat)
    requires Permutation(idx, n) && i < j < n
    ensures Permutation(idx[i := idx[j]][j := idx[i]], n)
  {
    var after := idx[i := idx[j]][j := idx[i]];
    forall v | 0 <= v < n ensures v in after {
      assert v in idx;
      var k :| 0 <= k < n && idx[k] == v;
      assert after[if k == i then j else if k == j then i else k] == v;
    }
  }

  class Dispatcher {
    const table: seq<Command>
    const sortedIdx: array<nat>
    var tableSize: nat

    /** Nothing is sorted yet, or everything is. */
    ghost predicate Valid()
      reads this, sortedIdx
    {
      && table != [] && sortedIdx.Length == |table|
      && (tableSize == 0
          || (tableSize == |table| && Permutation(sortedIdx[..], |table|) && Descending(table, sortedIdx[..])))
    }

    constructor (table: seq<Command>)
      requires table != []
      ensures this.table == table && tableSize == 0 && fresh(sortedIdx) && Valid()
    {
      this.table, tableSize := table, 0;
      sortedIdx := new nat[|table|];
    }

    lemma {:induction false} Identity(idx: seq<nat>)
      requires forall k :: 0 <= k < |idx| ==> idx[k] == k
      ensures Permutation(idx, |idx|)
    {
      forall i | 0 <= i < |idx| ensures i in idx {
        assert idx[i] == i;
      }
    }

    /** The inner loop of the sort. */
    method LongestFrom(i: nat) returns (maxj: nat)
      requires i < |table| == sortedIdx.Length && forall k :: 0 <= k < |table| ==> sortedIdx[k] < |table|
      ensures i <= maxj < |table|
      ensures forall k :: i <= k < |table| ==> table[sortedIdx[k]].length <= table[sortedIdx[maxj]].length
    {
      maxj := i;
      for j := i + 1 to |table|
        invariant i <= maxj < |table|
        invariant forall k :: i <= k < j ==> table[sortedIdx[k]].length <= table[sortedIdx[maxj]].length
      {
        if table[sortedIdx[j]].length > table[sortedIdx[maxj]].length {
          maxj := j;
        }
      }
    }

    method Swap(i: nat, j: nat)
      requires i < j < sortedIdx.Length && Permutation(sortedIdx[..], sortedIdx.Length)
      modifies sortedIdx
      ensures Permutation(sortedIdx[..], sortedIdx.Length)
      ensures sortedIdx[i] == old(sortedIdx[j]) && sortedIdx[j] == old(sortedIdx[i])
      ensures forall k :: 0 <= k < sortedIdx.Length && k != i && k != j ==> sortedIdx[k] == old(sortedIdx[k])
    {
      hide Permutation;
      SwapPermutes(sortedIdx[..], sortedIdx.Length, i, j);
      ghost var before := sortedIdx[..];
      var tmp := sortedIdx[i];
      sortedIdx[i] := sortedIdx[j];
      sortedIdx[j] := tmp;
      assert sortedIdx[..] == before[i := before[j]][j := before[i]];
    }

    method NumberIndices()
      modifies sortedIdx
      ensures Permutation(sortedIdx[..], sortedIdx.Length)
    {
      for i := 0 to sortedIdx.Length
        invariant forall k :: 0 <= k < i ==> sortedIdx[k] == k
      {
        sortedIdx[i] := i;
      }
      Identity(sortedIdx[..]);
    }

    /** InitUartCmdTableSortedIdx: a selection sort of the indices. */
    method InitSortedIdx()
      requires table != [] && sortedIdx.Length == |table|
      modifies this`tableSize, sortedIdx
      ensures Valid() && tableSize == |table|
    {
      tableSize := |table|;
      var n := |table|;
      NumberIndices();
      for i := 0 to n - 1
        invariant tableSize == n && Permutation(sortedIdx[..], n)
        invariant forall j, k :: 0 <= j < k < n && j < i ==> table[sortedIdx[j]].length >= table[sortedIdx[k]].length
      {
        var maxj := LongestFrom(i);
        if maxj != i {
          Swap(i, maxj);
        }
      }
    }

    lemma {:induction false} LengthRight(commands: seq<Command>, i: nat)
      requires Correct(commands) && i < |commands|
      ensures commands[i].length == |commands[i].cmd|
    {
    }

    lemma {:induction false} NotMatching(input: string, c: string)
      ensures Matches(input, c) ==> |c| <= |input| && input[..|c|] == c && (|c| == |input| || input[|c|] == ' ')
    {
    }

    /** In the sorted order the first match is the longest. */
    lemma {:induction false} FirstIsLongest(commands: seq<Command>, idx: seq<nat>, input: string, k: nat)
      requires Correct(commands) && Permutation(idx, |commands|) && Descending(commands, idx) && k < |idx|
      requires Matches(input, commands[idx[k]].cmd)
      requires forall j :: 0 <= j < k ==> !Matches(input, commands[idx[j]].cmd)
      ensures Longest(commands, input, idx[k])
    {
      forall j | 0 <= j < |commands| && j != idx[k] && Matches(input, commands[j].cmd)
        ensures |commands[j].cmd| < |commands[idx[k]].cmd|
      {
        assert j in idx;
        var l :| 0 <= l < |idx| && idx[l] == j;
        assert l > k;
        assert commands[idx[k]].length >= commands[idx[l]].length;
        MatchesDiffer(commands, input, j, idx[k]);
      }
    }

    /**
     HandleUartCommand: the longest matching command gets the rest of the trimmed input; none does exactly when none
     matches.
     */
    method HandleCommand(cmd: string) returns (handler: Option<nat>, param: string)
      requires Valid() && Correct(table) && NulFree(cmd)
      modifies this`tableSize, sortedIdx
      ensures Valid()
      ensures handler.Some? ==>
                Longest(table, Trim(cmd), handler.value) && Trim(cmd) == table[handler.value].cmd + param
      ensures handler.None? <==> forall i :: 0 <= i < |table| ==> !Matches(Trim(cmd), table[i].cmd)
    {
      hide Trim, Correct;
      var input := Trim(cmd);
      if tableSize == 0 {
        InitSortedIdx();
      }
      for k := 0 to tableSize
        invariant Valid() && tableSize == |table|
        invariant forall j :: 0 <= j < k ==> !Matches(input, table[sortedIdx[j]].cmd)
      {
        var i := sortedIdx[k];
        var c, length := table[i].cmd, table[i].length;
        LengthRight(table, i);
        if length <= |input| && input[..length] == c && (length == |input| || input[length] == ' ') {
          assert Matches(input, c);
          FirstIsLongest(table, sortedIdx[..], input, k);
          return Some(i), input[length..];
        }
        NotMatching(input, c);
      }
      forall i | 0 <= i < |table| ensures !Matches(input, table[i].cmd) {
        assert i in sortedIdx[..];
      }
      handler, param := None, "";
    }
  }
}
