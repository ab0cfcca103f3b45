/**
  The client side of the wake-up channel (class QWakeUpClient): wakeUp
  records the quit flag and connects; once connected, the client writes the
  one keyword the flag selects and disconnects.
 */
module Client {

  import W = Wrappers
  import P = WakeUpProtocol

  /** What the client does with its socket. */
  datatype SocketAction = ConnectToServer | Write(bytes: string) | DisconnectFromServer

  /** The signal a server emits for the keyword chosen by the quit flag. */
  function SignalFor(quit: bool): P.Signal {
    if quit then P.Quit else P.WakeUp
  }

  /** The keyword written for the quit flag: a full buffer that the server's
      check recognises as the matching signal. */
  function Keyword(quit: bool): (k: string)
    ensures |k| == P.ClearLength
    ensures P.Check(k).signal == W.Some(SignalFor(quit))
  {
    if quit then P.QuitKeyword else P.WakeKeyword
  }

  /** The bytes written, in order. */
  function Written(actions: seq<SocketAction>): string {
    if actions == [] then []
    else (if actions[0].Write? then actions[0].bytes else []) + Written(actions[1..])
  }

  lemma {:induction false} WrittenAppend(a: seq<SocketAction>, b: seq<SocketAction>)
    ensures Written(a + b) == Written(a) + Written(b)
  {
    if a == [] {
      assert a + b == b;
    } else {
      assert (a + b)[0] == a[0] && (a + b)[1..] == a[1..] + b;
      WrittenAppend(a[1..], b);
    }
  }

  class WakeUpClient {
    /** The flag of the latest wakeUp call. */
    var quit: bool
    /** Socket operations so far, in order. */
    var actions: seq<SocketAction>

    /** The flag starts false, so the default keyword is "wake". */
    constructor ()
      ensures !quit && actions == []
    {
      quit := false;
      actions := [];
    }

    /** Records the flag, then asks for a connection. */
    method WakeUp(quit: bool)
      modifies this
      ensures this.quit == quit
      ensures actions == old(actions) + [ConnectToServer]
    {
      this.quit := quit;
      actions := actions + [ConnectToServer];
    }

    /** Connected: writes the keyword the latest flag selects, then disconnects. */
    method SocketConnected()
      modifies this
      ensures quit == old(quit)
      ensures actions == old(actions) + [Write(Keyword(quit)), DisconnectFromServer]
      ensures Written(actions) == Written(old(actions)) + Keyword(quit)
    {
      ghost var before := actions;
      if quit {
        actions := actions + [Write("quit")];
      } else {
        actions := actions + [Write("wake")];
      }
      actions := actions + [DisconnectFromServer];
      WrittenAppend(before, [Write(Keyword(quit)), DisconnectFromServer]);
      assert Written([DisconnectFromServer]) == [];
    }
  }
}
