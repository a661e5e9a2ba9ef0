/** The sending half of a stream: frames are taken until the receiving half is gone. */
module OutStreams {

  class OutStream<T> {
    var sent: seq<T>
    /** How many frames are taken in all. */
    const cap: nat

    constructor (cap: nat)
      ensures sent == [] && this.cap == cap
    {
      sent := [];
      this.cap := cap;
    }

    method SendFrame(b: T) returns (ok: bool)
      modifies this
      ensures ok == (|old(sent)| < cap)
      ensures sent == if ok then old(sent) + [b] else old(sent)
    {
      ok := |sent| < cap;
      if ok {
        sent := sent + [b];
      }
    }
  }
}
