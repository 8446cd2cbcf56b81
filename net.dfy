/** The relay's peer endpoint, `net::Address` in server/Net.h. */
module Net {
  import opened Bytes

  /** The timeout written by maxTimeout(). */
  const MAX_TIMEOUT: u32 := 999999

  /** A peer endpoint: IPv4 address, UDP port and a count of broadcast
      ticks. The C++ class is copied by value (into the peer vector, into
      the local `sender`), so it is a datatype here and each mutator is a
      function giving the updated copy. The getters getAddress, getPort and
      getTimeout are the field names. */
  datatype Address = Address(address: u32, port: u16, timeout: u32)
  {
    /** operator==: address and port, never the timeout. */
    predicate Eq(other: Address)
      ensures Eq(other) <==> this.(timeout := 0) == other.(timeout := 0)
    {
      address == other.address && port == other.port
    }

    /** operator!=. */
    predicate Ne(other: Address)
      ensures Ne(other) <==> address != other.address || port != other.port
    {
      !Eq(other)
    }

    /** incTimeout(): `timeout++` on an unsigned int. */
    function IncTimeout(): (a: Address)
      ensures a.Eq(this) && a.address == address && a.port == port
      ensures a.timeout == (timeout + 1) % 0x1_0000_0000
      ensures timeout < 0xffff_ffff ==> a.timeout == timeout + 1
    {
      this.(timeout := if timeout == 0xffff_ffff then 0 else timeout + 1)
    }

    /** maxTimeout(). */
    function MaxTimeout(): (a: Address)
      ensures a.Eq(this) && a.address == address && a.port == port
      ensures a.timeout == MAX_TIMEOUT
    {
      this.(timeout := MAX_TIMEOUT)
    }

    /** resetTimeout(). */
    function ResetTimeout(): (a: Address)
      ensures a.Eq(this) && a.address == address && a.port == port
      ensures a.timeout == 0
    {
      this.(timeout := 0)
    }
  }

  /** Address(): the unbound endpoint. */
  function Unbound(): (a: Address)
    ensures a.address == 0 && a.port == 0 && a.timeout == 0
  {
    Address(0, 0, 0)
  }

  /** Address(address, port): a new endpoint starts with no elapsed ticks. */
  function Make(address: u32, port: u16): (a: Address)
    ensures a.address == address && a.port == port && a.timeout == 0
  {
    Address(address, port, 0)
  }

  /** operator== is an equivalence that cannot see the timeout: two
      endpoints that differ only in their counters compare equal, and
      every mutator keeps an endpoint equal to what it was. */
  lemma EqIgnoresTimeout(a: Address, b: Address, t: u32)
    ensures a.Eq(a)
    ensures a.Eq(b) <==> b.Eq(a)
    ensures a.Eq(b) <==> a.(timeout := t).Eq(b)
    ensures a.Eq(b) <==> a.IncTimeout().Eq(b)
    ensures a.Eq(b) <==> a.MaxTimeout().Eq(b) && a.ResetTimeout().Eq(b)
    ensures a.Eq(b) && a.timeout == b.timeout ==> a == b
  {
  }
}
