/** What the models of the connection thread share (bin/rpki-rtr/connection.c). */
module RtrProtocol {

  const SERIALS: nat := 0x1_0000_0000

  type Serial = n: nat | n < SERIALS

  datatype Query = SerialQuery(session: nat, serial: Serial) | ResetQuery

  datatype Mode = Ready | Responding

  /** handle_pdu's test that is answered with a Cache Reset. */
  predicate WrongSession(session: nat, q: Query) {
    q.SerialQuery? && q.session != session
  }
}
