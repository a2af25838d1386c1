// Integer widths, byte order and protocol numbers of packets.
module Wire {

  type U8 = x: nat | x < 0x100
  type U16 = x: nat | x < 0x1_0000
  type U32 = x: nat | x < 0x1_0000_0000

  const IPPROTO_TCP: U8 := 6
  const IPPROTO_UDP: U8 := 17
  const TCP_HEADER := 20
  const UDP_HEADER := 8

  /** A port as it stands in a packet: the first byte counts 256 times the second. */
  datatype Port = Port(first: U8, second: U8) {
    function Number(): U16 {
      256 * first + second
    }

    /** The two bytes read as one word by a little-endian machine. */
    function Word(): U16 {
      first + 256 * second
    }
  }

  /** htons on a little-endian machine. */
  function Swap(x: U16): U16 {
    x % 256 * 256 + x / 256
  }

  /** The bytes of a word are determined by it. */
  lemma SameBytes(lo: nat, hi: nat, lo': nat, hi': nat)
    requires lo < 256 && lo' < 256
    ensures lo + 256 * hi == lo' + 256 * hi' <==> lo == lo' && hi == hi'
  {
  }

  lemma BytesOf(x: U16) returns (lo: U8, hi: U8)
    ensures lo == x % 256 && hi == x / 256 && x == lo + 256 * hi && Swap(x) == hi + 256 * lo
  {
    lo, hi := x % 256, x / 256;
  }

  lemma SwapTwice(x: U16)
    ensures Swap(Swap(x)) == x
  {
    var lo, hi := BytesOf(x);
    var lo', hi' := BytesOf(Swap(x));
    SameBytes(hi, lo, lo', hi');
  }

  lemma SwapInjective(x: U16, y: U16)
    ensures Swap(x) == Swap(y) <==> x == y
  {
    SwapTwice(x);
    SwapTwice(y);
  }

  /** So a packet program that compares words finds a port exactly if the number is that of the packet. */
  lemma SwapIsWord(x: U16, port: Port)
    ensures Swap(x) == port.Word() <==> x == 256 * port.first + port.second
  {
    var lo, hi := BytesOf(x);
    SameBytes(hi, lo, port.first, port.second);
    SameBytes(lo, hi, port.second, port.first);
  }

  lemma WordOf(port: Port)
    ensures port.Word() == Swap(port.Number())
  {
    SwapIsWord(port.Number(), port);
  }

  lemma SwapZero()
    ensures Swap(0) == 0
  {
  }
}
