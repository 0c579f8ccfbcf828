/** ProtocolStream as the program runs it: buffers consumed and filled in place. */
module ProtocolProgram {
  import opened EntryLog
  import opened Decimal
  import opened Protocol

  class ProtocolStream {
    const hasCommandType: bool
    const wrapDefaultCommand: bool
    const wrapCommandName: string
    var inputBuf: string
    var curCommandBuf: string
    var argc: int
    var argv: seq<string>
    var curArgvLen: int
    var receiveComplete: bool
    var commandType: char
    var outputBuf: string

    ghost function View(): Parser
      reads this
    {
      Parser(hasCommandType, wrapDefaultCommand, wrapCommandName, inputBuf, curCommandBuf,
             argc, argv, curArgvLen, receiveComplete, commandType)
    }

    constructor (hasCommandType: bool, wrapDefaultCommand: bool, wrapCommandName: string)
      ensures View() == Parser(hasCommandType, wrapDefaultCommand, wrapCommandName, "", "", -1, [], -1, false, NUL)
      ensures Boundary(View()) && outputBuf == ""
    {
      this.hasCommandType := hasCommandType;
      this.wrapDefaultCommand := wrapDefaultCommand;
      this.wrapCommandName := wrapCommandName;
      inputBuf, curCommandBuf, outputBuf := "", "", "";
      argc, argv, curArgvLen := -1, [], -1;
      receiveComplete, commandType := false, NUL;
    }

    method GetReadyForNextCommand()
      modifies this
      ensures View() == Ready(old(View())) && outputBuf == old(outputBuf)
    {
      curCommandBuf := "";
      argc := -1;
      argv := [];
      curArgvLen := -1;
      receiveComplete := false;
      commandType := NUL;
    }

    /** Forgets the current command and the reply, but not the input. */
    method Clear()
      modifies this
      ensures View() == Ready(old(View())) && outputBuf == ""
    {
      GetReadyForNextCommand();
      outputBuf := "";
    }

    method FillReceiveBuf(str: string)
      modifies this`inputBuf
      ensures View() == Feed(old(View()), str)
    {
      inputBuf := inputBuf + str;
    }

    predicate IsReceiveBufAvailable()
      reads this
    {
      |inputBuf| != 0 && LF in inputBuf
    }

    /** append then erase: moves the first n bytes of the input to the current command. */
    method Move(n: nat)
      requires n <= |inputBuf|
      modifies this`inputBuf, this`curCommandBuf
      ensures View() == Consume(old(View()), n)
    {
      curCommandBuf := curCommandBuf + inputBuf[..n];
      inputBuf := inputBuf[n..];
    }

    /** The search for the argument count; `go` says that the call goes on. */
    method ResolveHeader() returns (go: bool, r: Outcome)
      requires Available(inputBuf)
      modifies this
      ensures (if go then Proceed(View()) else Return(r, View())) == HeaderStage(old(View()))
      ensures go ==> Available(inputBuf)
      ensures outputBuf == old(outputBuf)
    {
      if argc == -1 {
        if inputBuf[0] != '*' { return false, Failed; }
        var firstLF := FirstLF(inputBuf);
        var n := Stoi(inputBuf[1..firstLF + 1]);
        if n.None? { return false, Thrown; }
        argc := n.value;
        if argc <= 0 { return false, Failed; }
        Move(firstLF + 1);
        if !IsReceiveBufAvailable() { return false, Done; }
      }
      return true, Done;
    }

    /** The search for the command type. */
    method ResolveType() returns (go: bool, r: Outcome)
      requires Available(inputBuf)
      modifies this
      ensures (if go then Proceed(View()) else Return(r, View())) == TypeStage(old(View()))
      ensures outputBuf == old(outputBuf)
    {
      if hasCommandType && commandType == NUL {
        if inputBuf[0] != '#' { return false, Failed; }
        var firstLF := FirstLF(inputBuf);
        if firstLF != 2 { return false, Failed; }
        commandType := inputBuf[1];
        Move(firstLF + 1);
        if !IsReceiveBufAvailable() { return false, Done; }
      }
      return true, Done;
    }

    /** One round of the argument loop. */
    method ResolveOne() returns (r: Outcome)
      requires Available(inputBuf)
      modifies this
      ensures (r, View()) == ArgStep(old(View()))
      ensures outputBuf == old(outputBuf)
    {
      if curArgvLen == -1 {
        var firstLF := FirstLF(inputBuf);
        if inputBuf[0] != '$' { return Failed; }
        var n := Stoi(inputBuf[1..firstLF + 1]);
        if n.None? { return Thrown; }
        curArgvLen := n.value;
        Move(firstLF + 1);
      } else {
        if curArgvLen < 0 || curArgvLen > |inputBuf| { return OutOfBounds; }
        if curArgvLen == |inputBuf| || inputBuf[curArgvLen] != LF { return Failed; }
        argv := argv + [inputBuf[..curArgvLen]];
        Move(curArgvLen + 1);
        curArgvLen := -1;
        argc := argc - 1;
        if argc == 0 { receiveComplete := true; }
      }
      return Done;
    }

    method ResolveArguments() returns (r: Outcome)
      modifies this
      ensures (r, View()) == Args(old(View()))
      ensures outputBuf == old(outputBuf)
    {
      while IsReceiveBufAvailable()
        invariant Args(View()) == Args(old(View()))
        invariant outputBuf == old(outputBuf)
        decreases |inputBuf|
      {
        var inArgument := curArgvLen != -1;
        r := ResolveOne();
        if r != Done || (inArgument && argc == 0) { return; }
      }
      return Done;
    }

    method ResolveReceiveBuf() returns (r: Outcome)
      modifies this
      ensures (r, View()) == Resolve(old(View()))
      ensures outputBuf == old(outputBuf)
    {
      if !IsReceiveBufAvailable() { return Done; }
      var go: bool;
      go, r := ResolveHeader();
      if !go { return; }
      go, r := ResolveType();
      if !go { return; }
      r := ResolveArguments();
      if r == Done && wrapDefaultCommand {
        argv := [wrapCommandName, curCommandBuf];
      }
    }

    // -------------------------------------------------------------- output

    method InitReplyHead(argc: int)
      modifies this`outputBuf
      ensures outputBuf == old(outputBuf) + Head(argc)
    {
      outputBuf := outputBuf + "*";
      outputBuf := outputBuf + ToString(argc);
      outputBuf := outputBuf + [LF];
    }

    method AppendCommandType(commandType: char)
      modifies this`outputBuf
      ensures outputBuf == old(outputBuf) + TypeLine(commandType)
    {
      outputBuf := outputBuf + ['#'];
      outputBuf := outputBuf + [commandType];
      outputBuf := outputBuf + [LF];
    }

    method AppendReplyBody(part: string)
      modifies this`outputBuf
      ensures outputBuf == old(outputBuf) + Body(part)
    {
      outputBuf := outputBuf + "$";
      outputBuf := outputBuf + ToString(|part|);
      outputBuf := outputBuf + [LF];
      outputBuf := outputBuf + part;
      outputBuf := outputBuf + [LF];
    }
  }
}
