/** The sender's view of the peer's window (common.go: window). The condition variable is not modelled:
    where reserve would wait, it reports Wait and leaves everything as it is. */
module Windows {
  import opened ByteStrings

  /** What one call of reserve comes to. */
  datatype Reservation = Wait | Granted(n: nat) | Refused(n: nat)

  class Window {
    var win: nat
    var closed: bool

    ghost predicate Valid()
      reads this
    {
      win < TWO32
    }

    constructor ()
      ensures Valid() && win == 0 && !closed
    {
      win, closed := 0, false;
    }

    /** Adding fails exactly when the window would leave the range of uint32. */
    method Add(n: nat) returns (ok: bool)
      requires Valid() && n < TWO32
      modifies this`win
      ensures Valid()
      ensures ok <==> old(win) + n < TWO32
      ensures win == if ok then old(win) + n else old(win)
    {
      if n == 0 {
        return true;
      }
      if (win + n) % TWO32 < n {
        return false;
      }
      win := (win + n) % TWO32;
      return true;
    }

    method Close()
      modifies this`closed
      ensures closed
    {
      closed := true;
    }

    /** Waits only on an open, empty window; takes no more than asked for and no more than there is, and
        takes it even from a closed window, where the caller gets io.EOF instead. */
    method Reserve(n: nat) returns (r: Reservation)
      requires Valid()
      modifies this`win
      ensures Valid()
      ensures r.Wait? <==> old(win) == 0 && !closed
      ensures r.Refused? <==> closed
      ensures !r.Wait? ==> r.n <= n && r.n <= old(win) && (r.n == n || r.n == old(win))
      ensures old(win) == win + if r.Wait? then 0 else r.n
    {
      if win == 0 && !closed {
        return Wait;
      }
      var take := n;
      if win < take {
        take := win;
      }
      win := win - take;
      return if closed then Refused(take) else Granted(take);
    }
  }
}
