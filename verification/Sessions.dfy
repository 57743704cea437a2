/** Five-tuples (the protocol is always TCP). */
module Sessions {
  import opened Serial

  datatype Session = Session(sip: U32, dip: U32, sport: U16, dport: U16)

  /** The same session seen from its other end. */
  function Reverse(s: Session): Session {
    Session(s.dip, s.sip, s.dport, s.sport)
  }
}
