/**
 * The address handling the record engine takes from Go's `net` package:
 * net.ParseIP, IP.To4, net.ParseCIDR and IPNet.Contains. Textual parsing is
 * stated as a grammar (dotted quads; colon-separated hexadecimal groups with at
 * most one `::` and an optional embedded dotted quad at the end) rather than as
 * the library's character loop.
 */
module Net {
  import opened Wrappers
  import opened Text

  type byte = b: int | 0 <= b < 256

  /** A parsed address as net.ParseIP returns it: 16 bytes, IPv4 in the IPv4-mapped form ::ffff:a.b.c.d. */
  type IP = a: seq<byte> | |a| == 16 witness seq(16, _ => 0)

  /** One dotted-quad field: canonical decimal (no leading zero), at most 255. */
  predicate ValidOctet(f: string)
  {
    CanonicalDecimal(f) && DigitsValue(f) <= 255
  }

  /** The four bytes of a dotted quad, or None if `s` is not one. */
  function ParseDottedQuad(s: string): (r: Option<seq<byte>>)
    ensures r.Some? ==> |r.value| == 4
  {
    var fields := Split(s, '.');
    if |fields| == 4 && forall k :: 0 <= k < 4 ==> ValidOctet(fields[k]) then
      Some(seq(4, k requires 0 <= k < 4 => DigitsValue(fields[k]) as byte))
    else
      None
  }

  function Zeros(n: nat): (z: seq<byte>)
    ensures |z| == n && forall i :: 0 <= i < n ==> z[i] == 0
  {
    seq(n, _ => 0)
  }

  /** The IPv4-mapped IPv6 form ::ffff:a.b.c.d of four IPv4 bytes. */
  function V4Mapped(b4: seq<byte>): IP
    requires |b4| == 4
  {
    Zeros(10) + [255, 255] + b4
  }

  predicate ValidHexGroup(g: string)
  {
    1 <= |g| <= 4 && forall i :: 0 <= i < |g| ==> IsHexDigit(g[i])
  }

  function HexValue(c: char): (v: nat)
    requires IsHexDigit(c)
    ensures v < 16
  {
    if '0' <= c <= '9' then c as int - '0' as int
    else if 'a' <= c <= 'f' then c as int - 'a' as int + 10
    else c as int - 'A' as int + 10
  }

  function HexGroupValue(g: string): (v: nat)
    requires forall i :: 0 <= i < |g| ==> IsHexDigit(g[i])
    ensures v < Pow16(|g|)
  {
    if g == [] then 0 else HexGroupValue(g[..|g| - 1]) * 16 + HexValue(g[|g| - 1])
  }

  function Pow16(n: nat): nat
  {
    if n == 0 then 1 else 16 * Pow16(n - 1)
  }

  /** The two bytes of one 16-bit hexadecimal group, high byte first. */
  function GroupBytes(g: string): (b: seq<byte>)
    requires ValidHexGroup(g)
    ensures |b| == 2
  {
    var v := HexGroupValue(g);
    assert Pow16(|g|) <= 65536 by {
      assert Pow16(4) == 65536;
      Pow16Monotone(|g|, 4);
    }
    [v / 256, v % 256]
  }

  lemma {:induction false} Pow16Monotone(m: nat, n: nat)
    requires m <= n
    ensures Pow16(m) <= Pow16(n)
  {
    if m < n {
      Pow16Monotone(m, n - 1);
    }
  }

  /**
   * The bytes of colon-separated pieces: each a hexadecimal group, except that
   * the last may be an embedded dotted quad when `allowTail` holds.
   */
  function ParsePieces(pieces: seq<string>, allowTail: bool): (r: Option<seq<byte>>)
  {
    if |pieces| == 0 then Some([])
    else if |pieces| == 1 && allowTail && ParseDottedQuad(pieces[0]).Some? then ParseDottedQuad(pieces[0])
    else if ValidHexGroup(pieces[0]) then
      match ParsePieces(pieces[1..], allowTail)
      case None => None
      case Some(rest) => Some(GroupBytes(pieces[0]) + rest)
    else None
  }

  /** The index of the first "::" in `s`. */
  function FindDoubleColon(s: string, from: nat := 0): (r: Option<nat>)
    requires from <= |s|
    ensures r.Some? ==> from <= r.value && r.value + 2 <= |s| && s[r.value] == ':' && s[r.value + 1] == ':'
    decreases |s| - from
  {
    if from + 2 > |s| then None
    else if s[from] == ':' && s[from + 1] == ':' then Some(from)
    else FindDoubleColon(s, from + 1)
  }

  /** IPv6 text: eight groups, or fewer around one `::` that stands for at least one zero group. */
  function ParseIPv6(s: string): (r: Option<IP>)
  {
    match FindDoubleColon(s)
    case None =>
      var g := ParsePieces(Split(s, ':'), true);
      if g.Some? && |g.value| == 16 then Some(g.value) else None
    case Some(i) =>
      var left := s[..i];
      var right := s[i + 2..];
      var l := if left == [] then Some([]) else ParsePieces(Split(left, ':'), false);
      var r := if right == [] then Some([]) else ParsePieces(Split(right, ':'), true);
      if l.Some? && r.Some? && |l.value| + |r.value| <= 14 then
        Some(l.value + Zeros(16 - |l.value| - |r.value|) + r.value)
      else None
  }

  /**
   * net.ParseIP: a dotted quad, or IPv6 text (anything with a colon). Zones
   * ("%eth0") and every other text give None (Go: nil).
   */
  function ParseIP(s: string): (r: Option<IP>)
    ensures ':' !in s ==> (r.Some? <==> ParseDottedQuad(s).Some?)
    ensures ':' !in s && r.Some? ==> To4(r.value) == ParseDottedQuad(s)
  {
    if ':' in s then ParseIPv6(s)
    else match ParseDottedQuad(s)
      case None => None
      case Some(b4) => Some(V4Mapped(b4))
  }

  /** IP.To4: the last four bytes of an IPv4-mapped address, None (Go: nil) for any other address. */
  function To4(ip: IP): (r: Option<seq<byte>>)
    ensures r.Some? ==> |r.value| == 4 && ip == V4Mapped(r.value)
  {
    if ip[..10] == Zeros(10) && ip[10] == 255 && ip[11] == 255 then Some(ip[12..]) else None
  }

  /**
   * A network as net.ParseCIDR returns it: the masked network number (4 bytes
   * for a dotted-quad CIDR, 16 otherwise) and the mask as the number of
   * leading one bits of each mask byte.
   */
  datatype IPNet = IPNet(ip: seq<byte>, mask: seq<nat>)

  /** net.CIDRMask(ones, bits), byte by byte. */
  function CIDRMask(ones: nat, bits: nat): (m: seq<nat>)
    ensures |m| == bits / 8 && forall i :: 0 <= i < |m| ==> m[i] <= 8
  {
    seq(bits / 8, i => if ones >= 8 * (i + 1) then 8 else if ones <= 8 * i then 0 else ones - 8 * i)
  }

  /** `b` with its `k` lowest bits cleared. */
  function ClearLow(b: nat, k: nat): (r: nat)
    ensures r <= b
  {
    if k == 0 then b else 2 * ClearLow(b / 2, k - 1)
  }

  /** b & m for the mask byte m with `ones` leading one bits: the low 8 - ones bits cleared. */
  function MaskByte(b: byte, ones: nat): byte
  {
    if ones >= 8 then b else ClearLow(b, 8 - ones)
  }

  /** IP.Mask for an address and mask of equal length. */
  function ApplyMask(ip: seq<byte>, mask: seq<nat>): (r: seq<byte>)
    requires |ip| == |mask|
    ensures |r| == |ip|
  {
    seq(|ip|, i requires 0 <= i < |ip| => MaskByte(ip[i], mask[i]))
  }

  function IndexOf(s: string, c: char, from: nat := 0): (r: Option<nat>)
    requires from <= |s|
    ensures r.Some? ==> from <= r.value < |s| && s[r.value] == c
    ensures r.None? ==> forall j :: from <= j < |s| ==> s[j] != c
    decreases |s| - from
  {
    if from == |s| then None else if s[from] == c then Some(from) else IndexOf(s, c, from + 1)
  }

  /**
   * net.ParseCIDR: address "/" decimal prefix length, at most 32 for a dotted
   * quad and 128 for IPv6 text.
   */
  function ParseCIDR(s: string): (r: Option<IPNet>)
    ensures r.Some? ==> |r.value.ip| == |r.value.mask| && |r.value.mask| in {4, 16}
  {
    match IndexOf(s, '/')
    case None => None
    case Some(i) =>
      var addr := s[..i];
      var prefix := s[i + 1..];
      match ParseIP(addr)
      case None => None
      case Some(ip) =>
        var bits := if ':' in addr then 128 else 32;
        if |prefix| >= 1 && AllDigits(prefix) && DigitsValue(prefix) <= bits then
          var mask := CIDRMask(DigitsValue(prefix), bits);
          Some(IPNet(ApplyMask(if bits == 32 then ip[12..] else ip, mask), mask))
        else None
  }

  /** IP.To4 on a 4- or 16-byte address, falling back to the address itself when it is not IPv4. */
  function Unmap(x: seq<byte>): seq<byte>
  {
    if |x| == 16 && To4(x).Some? then To4(x).value else x
  }

  /** IPNet.Contains: equal length after unmapping IPv4, and equal under the mask. */
  predicate NetContains(n: IPNet, ip: IP)
  {
    var nn := Unmap(n.ip);
    var m := if |n.mask| == 16 && |nn| == 4 then n.mask[12..] else n.mask;
    var x := Unmap(ip);
    |m| == |nn| && |x| == |nn| && forall i :: 0 <= i < |nn| ==> MaskByte(nn[i], m[i]) == MaskByte(x[i], m[i])
  }

  /** The fields of a dotted quad are the `%d` renderings of its bytes. */
  lemma DottedQuadFields(s: string)
    requires ParseDottedQuad(s).Some?
    ensures var b := ParseDottedQuad(s).value;
            Split(s, '.') == [Decimal(b[0]), Decimal(b[1]), Decimal(b[2]), Decimal(b[3])]
  {
    var fields := Split(s, '.');
    var b := ParseDottedQuad(s).value;
    forall k | 0 <= k < 4
      ensures fields[k] == Decimal(b[k])
    {
      DecimalOfCanonical(fields[k]);
    }
  }

  /** Masking twice with the same mask is masking once. */
  lemma MaskByteIdempotent(b: byte, ones: nat)
    ensures MaskByte(MaskByte(b, ones), ones) == MaskByte(b, ones)
  {
    if ones < 8 {
      ClearLowTwice(b, 8 - ones);
    }
  }

  /** Clearing the same low bits twice is clearing them once. */
  lemma {:induction false} ClearLowTwice(b: nat, k: nat)
    ensures ClearLow(ClearLow(b, k), k) == ClearLow(b, k)
  {
    if k > 0 {
      var y := ClearLow(b / 2, k - 1);
      assert (2 * y) / 2 == y;
      ClearLowTwice(b / 2, k - 1);
    }
  }

  /** Reading back a digit `%x` printed gives its value. */
  lemma HexValueOfHexChar(n: nat)
    requires n < 16
    ensures HexValue(HexChar(n)) == n
  {
  }

  /** The first occurrence of `c` at or after `from` is at `at` when none comes before it. */
  lemma {:induction false} IndexOfFirst(s: string, c: char, at: nat, from: nat)
    requires from <= at < |s| && s[at] == c
    requires forall j :: from <= j < at ==> s[j] != c
    ensures IndexOf(s, c, from) == Some(at)
    decreases at - from
  {
    if from < at {
      IndexOfFirst(s, c, at, from + 1);
    }
  }
}
