/** How a worker thread tells the main thread that a done list is no longer empty: an eventfd counter that is
    registered with epoll edge-triggered, written after each append and read before each drain. */
module Notification {

  // Where the main thread is: elsewhere, called by epoll, or popping completions.
  datatype Reader = Away | Called | Draining

  // `edge` says that epoll_wait will report the descriptor; a write sets it, a report clears it.
  datatype Bell = Bell(counter: nat, edge: bool, reader: Reader)

  const SILENT := Bell(0, false, Away)

  // eventfd_write
  function Ring(b: Bell): Bell {
    b.(counter := b.counter + 1, edge := true)
  }

  // epoll_wait reports the descriptor.
  function Report(b: Bell): Bell
    requires b.edge && b.reader == Away
  {
    b.(edge := false, reader := Called)
  }

  // eventfd_read takes the whole count; the drain loop begins.
  function Read(b: Bell): Bell
    requires b.reader == Called
  {
    b.(counter := 0, reader := Draining)
  }

  // The drain loop ends when it finds nothing.
  function Leave(b: Bell): Bell
    requires b.reader == Draining
  {
    b.(reader := Away)
  }

  /** No completion is stranded: either the main thread will be called (or has been), or a producer that has
      appended is about to ring, or the drain loop is still going on. */
  predicate Heard(b: Bell, waiting: nat, ringers: nat) {
    && (b.counter > 0 ==> b.edge || b.reader == Called)
    && (waiting > 0 ==> b.counter > 0 || ringers > 0 || b.reader == Draining)
  }

  lemma RingHeard(b: Bell, waiting: nat, ringers: nat)
    requires Heard(b, waiting, ringers) && ringers > 0
    ensures Heard(Ring(b), waiting, ringers - 1)
  {
  }

  lemma ReadHeard(b: Bell, waiting: nat, ringers: nat)
    requires Heard(b, waiting, ringers)
    ensures b.edge && b.reader == Away ==> Heard(Report(b), waiting, ringers)
    ensures b.reader == Called ==> Heard(Read(b), waiting, ringers)
    ensures b.reader == Draining && waiting == 0 ==> Heard(Leave(b), waiting, ringers)
  {
  }
}
