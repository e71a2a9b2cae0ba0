/**
 * The host byte-order probe of the tools package (tools/binary.go).
 *
 * At package initialisation the probe stores the Go int 0x1001 in memory
 * and looks at its first byte: 0x10 selects BigEndian, anything else
 * LittleEndian.  The host's order and the width of Go's int (4 or 8 bytes,
 * depending on the platform) are parameters here, since they are facts
 * about the machine and not about the program.
 */
module ByteOrderProbe {

  import opened Bytes
  import opened Wrappers

  /** The probe value x := 0x1001. */
  const PROBE: nat := 0x1001

  /** The bytes of an integer type w bytes wide holding x, in the memory order of the host. */
  function InMemory(host: ByteOrder, x: nat, w: nat): (b: seq<u8>)
    ensures |b| == w
  {
    Encode(host, x, w)
  }

  /** The order the probe selects: BigEndian exactly when the first byte in memory is 0x10. */
  function ProbeOrder(host: ByteOrder, intWidth: nat): ByteOrder
    requires intWidth >= 1
  {
    if InMemory(host, PROBE, intWidth)[0] == 0x10 then BigEndian else LittleEndian
  }

  lemma {:induction false} BigBytesOfZero(n: nat, i: nat)
    requires i < n
    ensures BigBytes(0, n)[i] == 0
  {
    if i < n - 1 {
      BigBytesOfZero(n - 1, i);
    }
  }

  /**
   * The first byte of the probe in memory: 0x01 on a little-endian host;
   * on a big-endian host 0x10 for a 2-byte integer, 0x01 for a 1-byte one
   * (truncated) and 0x00 for anything wider than 2 bytes.
   */
  lemma FirstProbeByte(host: ByteOrder, w: nat)
    requires w >= 1
    ensures InMemory(host, PROBE, w)[0] ==
      if host == LittleEndian || w == 1 then 0x01
      else if w == 2 then 0x10
      else 0x00
  {
    if host == BigEndian && w >= 2 {
      assert BigBytes(PROBE, w) == BigBytes(0x10, w - 1) + [0x01];
      assert BigBytes(0x10, w - 1) == BigBytes(0, w - 2) + [0x10];
      if w > 2 {
        BigBytesOfZero(w - 2, 0);
      }
    }
  }

  /** The probe says BigEndian only on a big-endian host whose integer is exactly 2 bytes wide. */
  lemma ProbeBigEndianOnlyForTwoBytes(host: ByteOrder, w: nat)
    requires w >= 1
    ensures ProbeOrder(host, w) == BigEndian <==> host == BigEndian && w == 2
  {
    FirstProbeByte(host, w);
  }

  /** On a little-endian host the first byte is 0x01 and the probe says LittleEndian. */
  lemma ProbeOnLittleEndianHost(w: nat)
    requires w >= 1
    ensures InMemory(LittleEndian, PROBE, w)[0] == 0x01
    ensures ProbeOrder(LittleEndian, w) == LittleEndian
  {
    FirstProbeByte(LittleEndian, w);
  }

  /** With Go's 4- or 8-byte int the probe says LittleEndian whatever the host's order. */
  lemma ProbeWithGoInt(host: ByteOrder, w: nat)
    requires w == 4 || w == 8
    ensures ProbeOrder(host, w) == LittleEndian
    ensures host == BigEndian ==> InMemory(host, PROBE, w)[0] == 0x00
  {
    FirstProbeByte(host, w);
  }

  /**
   * The probe as evidently intended: the low byte 0x01 comes first exactly
   * on a little-endian host, whatever the width of the integer.
   */
  function IntendedProbeOrder(host: ByteOrder, intWidth: nat): (r: ByteOrder)
    requires intWidth >= 2
    ensures r == host
  {
    FirstProbeByte(host, intWidth);
    if InMemory(host, PROBE, intWidth)[0] == 0x01 then LittleEndian else BigEndian
  }

  /**
   * The package-level state of tools: `Order` is nil until the package's
   * init function assigns it, and nothing assigns it afterwards.
   */
  class Tools {
    var order: Option<ByteOrder>

    constructor ()
      ensures order == None
    {
      order := None;
    }

    /** The package init function, which Go runs once, before anything reads `Order`. */
    method Init(host: ByteOrder, intWidth: nat)
      requires order == None
      requires intWidth == 4 || intWidth == 8
      modifies this
      ensures order == Some(ProbeOrder(host, intWidth))
      ensures order == Some(LittleEndian)
    {
      var x := InMemory(host, PROBE, intWidth);
      if x[0] == 0x10 {
        order := Some(BigEndian);
      } else {
        order := Some(LittleEndian);
      }
      ProbeWithGoInt(host, intWidth);
    }
  }
}
