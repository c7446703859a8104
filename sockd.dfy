/**
 * The SOCKS-like tunnel daemon: the destination request that a client sends
 * first on an encrypted connection, the check that keeps NUL bytes away from
 * the dialer, the shared-secret key derivation of the cipher, and the
 * daemon's own configuration check.
 *
 * The connection is modelled by the bytes it will deliver (already
 * decrypted); reading consumes them in order. MD5 is a parameter: any
 * function from bytes to 16-byte digests.
 */
module Sockd {
  import opened Wrappers
  import opened Bytes

  const AddressTypeMask := 0x0f
  const AddressTypeIndex := 0
  const AddressTypeIPv4 := 1
  const AddressTypeDM := 3
  const AddressTypeIPv6 := 4

  const IPPacketIndex := 1
  const IPv4Len := 4
  const IPv6Len := 16
  const IPv4PacketLength := IPv4Len + 2
  const IPv6PacketLength := IPv6Len + 2
  const DMPacketIndex := 2
  const DMPacketLength := 1
  const DMPacketPaddingLength := 2

  /** The size of the buffer a request is read into. */
  const RequestBufferSize := 269

  const MD5SumLength := 16

  /** An MD5 digest. */
  type Digest = d: seq<Byte> | |d| == MD5SumLength witness seq(16, _ => 0)

  /* ---------------------------------------------------------- requests */

  /** The host part of a destination, before it is formatted as text. */
  datatype Host =
    | IPv4(addr: seq<Byte>)
    | IPv6(addr: seq<Byte>)
    | DomainName(name: seq<Byte>)

  datatype Destination = Destination(host: Host, port: int)

  datatype RequestError =
    | Truncated                    // the connection ended before the request was complete
    | UnknownType(maskedType: int) // the low nibble of the type byte is not 1, 3 or 4

  /** The address-type byte with its high nibble cleared (`addrType & 0xf`). */
  function MaskedType(b: Byte): (t: int)
    ensures 0 <= t < 16 && (b - t) % 16 == 0
  {
    b % 16
  }

  /**
   * What a request decodes to: the type byte, then a 4-byte IPv4 address,
   * a 16-byte IPv6 address, or a length byte L and an L-byte name; then the
   * port, big-endian, in the two bytes that end the request.
   */
  function DecodeRequest(input: seq<Byte>): Result<Destination, RequestError>
  {
    if |input| < 1 then Failure(Truncated)
    else
      var t := MaskedType(input[0]);
      if t == AddressTypeIPv4 then
        if |input| < 7 then Failure(Truncated)
        else Success(Destination(IPv4(input[1..5]), BigEndian16(input[5], input[6])))
      else if t == AddressTypeIPv6 then
        if |input| < 19 then Failure(Truncated)
        else Success(Destination(IPv6(input[1..17]), BigEndian16(input[17], input[18])))
      else if t == AddressTypeDM then
        if |input| < 2 then Failure(Truncated)
        else
          var l: int := input[1];
          if |input| < 4 + l then Failure(Truncated)
          else Success(Destination(DomainName(input[2..2 + l]), BigEndian16(input[2 + l], input[3 + l])))
      else Failure(UnknownType(t))
  }

  /** A destination a client can ask for: addresses of the right size, a name of at most 255 bytes, a 16-bit port. */
  predicate WellFormed(d: Destination)
  {
    && 0 <= d.port < 0x1_0000
    && match d.host
       case IPv4(addr) => |addr| == IPv4Len
       case IPv6(addr) => |addr| == IPv6Len
       case DomainName(name) => |name| < 256
  }

  /** The request a client sends for `d`. */
  function EncodeRequest(d: Destination): (req: seq<Byte>)
    requires WellFormed(d)
  {
    var port: seq<Byte> := [d.port / 256, d.port % 256];
    match d.host
    case IPv4(addr) => [AddressTypeIPv4] + addr + port
    case IPv6(addr) => [AddressTypeIPv6] + addr + port
    case DomainName(name) => [AddressTypeDM, |name|] + name + port
  }

  /** An IPv4 request is 7 bytes, an IPv6 request 19, a request for an L-byte name 4 + L; none exceeds 259. */
  lemma EncodedLength(d: Destination)
    requires WellFormed(d)
    ensures var n := |EncodeRequest(d)|;
      && (d.host.IPv4? ==> n == 1 + IPv4PacketLength)
      && (d.host.IPv6? ==> n == 1 + IPv6PacketLength)
      && (d.host.DomainName? ==> n == DMPacketIndex + |d.host.name| + DMPacketPaddingLength)
      && n <= 259 < RequestBufferSize
  {
  }

  /** Decoding a request gives back its destination, whatever follows the request on the connection. */
  lemma DecodeEncode(d: Destination, rest: seq<Byte>)
    requires WellFormed(d)
    ensures DecodeRequest(EncodeRequest(d) + rest) == Success(d)
  {
    var req := EncodeRequest(d) + rest;
    var p := d.port;
    match d.host
    case IPv4(addr) =>
      assert req[1..5] == addr;
      assert req[5] == p / 256 && req[6] == p % 256;
    case IPv6(addr) =>
      assert req[1..17] == addr;
      assert req[17] == p / 256 && req[18] == p % 256;
    case DomainName(name) =>
      var l := |name|;
      assert req[1] == l;
      assert req[2..2 + l] == name;
      assert req[2 + l] == p / 256 && req[3 + l] == p % 256;
  }

  /** A request cut short anywhere is refused as truncated: no destination comes out of part of a request. */
  lemma TruncatedRefused(d: Destination, k: nat)
    requires WellFormed(d) && k < |EncodeRequest(d)|
    ensures DecodeRequest(EncodeRequest(d)[..k]) == Failure(Truncated)
  {
    var req := EncodeRequest(d);
    if k >= 2 && d.host.DomainName? {
      assert req[..k][1] == |d.host.name|;
    }
    if k >= 1 {
      assert req[..k][0] == req[0];
    }
  }

  /**
   * Every decoded request is the encoding of its destination, up to the high
   * nibble of the type byte: the bytes after the type byte are exactly the
   * ones the destination encodes to.
   */
  lemma DecodeIsEncoded(input: seq<Byte>)
    requires DecodeRequest(input).Success?
    ensures var d := DecodeRequest(input).value;
      var req := EncodeRequest(d);
      && WellFormed(d)
      && |req| <= |input|
      && MaskedType(input[0]) == req[0]
      && input[1..|req|] == req[1..]
  {
    var d := DecodeRequest(input).value;
    var req := EncodeRequest(d);
    var n := |req|;
    assert WellFormed(d);
    match d.host
    case IPv4(_) =>
      assert input[1..n] == input[1..5] + [input[5], input[6]];
    case IPv6(_) =>
      assert input[1..n] == input[1..17] + [input[17], input[18]];
    case DomainName(name) =>
      var l := input[1];
      assert input[1..n] == [input[1]] + input[2..2 + l] + [input[2 + l], input[3 + l]];
  }

  /** Only the low nibble of the type byte matters. */
  lemma TypeHighBitsIgnored(b: Byte, rest: seq<Byte>)
    ensures DecodeRequest([b] + rest) == DecodeRequest([MaskedType(b)] + rest)
  {
    var x, y := [b] + rest, [MaskedType(b)] + rest;
    assert MaskedType(y[0]) == MaskedType(x[0]);
    assert forall k :: 1 <= k < |x| ==> x[k] == y[k];
    if |rest| >= 18 {
      assert x[1..17] == y[1..17];
    }
    if |rest| >= 4 {
      assert x[1..5] == y[1..5];
    }
    if |rest| >= 1 && |rest| >= 3 + rest[0] as int {
      assert x[2..2 + rest[0] as int] == y[2..2 + rest[0] as int];
    }
  }

  /** A type byte whose low nibble is not 1, 3 or 4 is refused with that value. */
  lemma UnknownTypeRefused(input: seq<Byte>)
    requires |input| >= 1
    ensures var t := MaskedType(input[0]);
      DecodeRequest(input) == Failure(UnknownType(t))
      <==> t != AddressTypeIPv4 && t != AddressTypeIPv6 && t != AddressTypeDM
  {
  }

  /**
   * io.ReadFull into `buf[from..to]` from the connection at `pos`: the bytes
   * that are there arrive in order; `ok` is false when the connection ends
   * before the slice is full.
   */
  method ReadFull(buf: array<Byte>, from: nat, to: nat, input: seq<Byte>, pos: nat) returns (ok: bool, next: nat)
    requires from <= to <= buf.Length && pos <= |input|
    modifies buf
    ensures ok <==> pos + (to - from) <= |input|
    ensures ok ==> next == pos + (to - from)
    ensures forall j :: from <= j < to && pos + (j - from) < |input| ==> buf[j] == input[pos + (j - from)]
    ensures forall j :: 0 <= j < buf.Length && !(from <= j < to) ==> buf[j] == old(buf[j])
  {
    var n := to - from;
    var avail := if pos + n <= |input| then n else |input| - pos;
    forall j | from <= j < from + avail {
      buf[j] := input[pos + (j - from)];
    }
    ok := avail == n;
    next := pos + avail;
  }

  /**
   * ParseRequest: read the type byte, then (for a name) the length byte,
   * then the rest of the request into a 269-byte buffer, and take the
   * destination out of the buffer.
   */
  method ParseRequest(input: seq<Byte>) returns (r: Result<Destination, RequestError>)
    ensures r == DecodeRequest(input)
  {
    var buf := new Byte[RequestBufferSize];
    var ok, pos := ReadFull(buf, AddressTypeIndex, AddressTypeIndex + 1, input, 0);
    if !ok {
      return Failure(Truncated);
    }
    var maskedType := MaskedType(buf[AddressTypeIndex]);
    var reqStart: int, reqEnd: int;
    if maskedType == AddressTypeIPv4 {
      reqStart, reqEnd := IPPacketIndex, IPPacketIndex + IPv4PacketLength;
    } else if maskedType == AddressTypeIPv6 {
      reqStart, reqEnd := IPPacketIndex, IPPacketIndex + IPv6PacketLength;
    } else if maskedType == AddressTypeDM {
      ok, pos := ReadFull(buf, AddressTypeIndex + 1, DMPacketLength + 1, input, pos);
      if !ok {
        return Failure(Truncated);
      }
      reqStart, reqEnd := DMPacketIndex, DMPacketIndex + buf[DMPacketLength] + DMPacketPaddingLength;
    } else {
      return Failure(UnknownType(maskedType));
    }
    assert pos == reqStart && reqEnd <= 259;
    ok, pos := ReadFull(buf, reqStart, reqEnd, input, pos);
    if !ok {
      return Failure(Truncated);
    }
    assert buf[..reqEnd] == input[..reqEnd];
    var dest := DestinationInBuffer(buf, maskedType, reqEnd);
    DecodeRequestPrefix(input, reqEnd);
    return Success(dest);
  }

  /**
   * The second half of ParseRequest: the destination held by a complete
   * request of type `maskedType` in the first `reqEnd` bytes of the buffer.
   */
  method DestinationInBuffer(buf: array<Byte>, maskedType: int, reqEnd: int) returns (d: Destination)
    requires buf.Length == RequestBufferSize && MaskedType(buf[AddressTypeIndex]) == maskedType
    requires || (maskedType == AddressTypeIPv4 && reqEnd == IPPacketIndex + IPv4PacketLength)
             || (maskedType == AddressTypeIPv6 && reqEnd == IPPacketIndex + IPv6PacketLength)
             || (maskedType == AddressTypeDM && reqEnd == DMPacketIndex + buf[DMPacketLength] + DMPacketPaddingLength)
    ensures DecodeRequest(buf[..reqEnd]) == Success(d)
  {
    var request := buf[..reqEnd];
    var host;
    if maskedType == AddressTypeIPv4 {
      host := IPv4(buf[IPPacketIndex..IPPacketIndex + IPv4Len]);
      assert host.addr == request[1..5];
    } else if maskedType == AddressTypeIPv6 {
      host := IPv6(buf[IPPacketIndex..IPPacketIndex + IPv6Len]);
      assert host.addr == request[1..17];
    } else {
      host := DomainName(buf[DMPacketIndex..DMPacketIndex + buf[DMPacketLength]]);
      assert host.name == request[2..2 + request[1]];
    }
    var port := BigEndian16(buf[reqEnd - 2], buf[reqEnd - 1]);
    d := Destination(host, port);
  }

  /** Decoding reads no byte past the request: whatever follows a complete request does not change it. */
  lemma DecodeRequestPrefix(input: seq<Byte>, n: nat)
    requires n <= |input| && DecodeRequest(input[..n]).Success?
    ensures DecodeRequest(input) == DecodeRequest(input[..n])
  {
    var prefix := input[..n];
    assert prefix[0] == input[0];
    var t := MaskedType(input[0]);
    if t == AddressTypeIPv4 {
      assert prefix[1..5] == input[1..5];
      assert prefix[5] == input[5] && prefix[6] == input[6];
    } else if t == AddressTypeIPv6 {
      assert prefix[1..17] == input[1..17];
      assert prefix[17] == input[17] && prefix[18] == input[18];
    } else {
      var l := input[1] as int;
      assert prefix[1] == input[1];
      assert prefix[2..2 + l] == input[2..2 + l];
      assert prefix[2 + l] == input[2 + l] && prefix[3 + l] == input[3 + l];
    }
  }

  /**
   * The destination text holds a NUL byte. Formatted IP addresses and port
   * numbers never do, so only a domain name can bring one in.
   */
  predicate HasNul(d: Destination)
  {
    d.host.DomainName? && 0 in d.host.name
  }

  /**
   * The part of HandleAndCloseConnection before the dial: the destination to
   * dial, or None when the request was refused or names a NUL byte.
   */
  method DialTarget(input: seq<Byte>) returns (dest: Option<Destination>)
    ensures dest.Some? <==> DecodeRequest(input).Success? && !HasNul(DecodeRequest(input).value)
    ensures dest.Some? ==> dest.value == DecodeRequest(input).value && !HasNul(dest.value)
  {
    var r := ParseRequest(input);
    if r.Failure? {
      return None;
    }
    if HasNul(r.value) {
      return None;
    }
    return Some(r.value);
  }

  /* ------------------------------------------------------------ cipher */

  /** An AES-CTR key stream, known here only by the key and IV it was made from. */
  datatype Stream = Stream(key: seq<Byte>, iv: seq<Byte>)

  /**
   * The first `n` digests of the key derivation laid end to end: the first is
   * the digest of the password, each next one the digest of the one before
   * followed by the password.
   */
  function KeyMaterial(password: seq<Byte>, md5: seq<Byte> -> Digest, n: nat): (m: seq<Byte>)
    requires n >= 1
    ensures |m| == n * MD5SumLength
  {
    if n == 1 then md5(password)
    else
      var before := KeyMaterial(password, md5, n - 1);
      before + md5(before[|before| - MD5SumLength..] + password)
  }

  /** Two digests of key material are md5(p) followed by md5(md5(p) + p). */
  lemma TwoDigests(password: seq<Byte>, md5: seq<Byte> -> Digest)
    ensures KeyMaterial(password, md5, 2) == md5(password) + md5(md5(password) + password)
  {
    assert KeyMaterial(password, md5, 1) == md5(password);
  }

  /** Go's copy into `dst` at `at`: as many bytes of `src` as fit. */
  method CopyBytes(dst: array<Byte>, at: nat, src: seq<Byte>) returns (n: nat)
    requires at <= dst.Length
    modifies dst
    ensures n == if |src| <= dst.Length - at then |src| else dst.Length - at
    ensures forall j :: at <= j < at + n ==> dst[j] == src[j - at]
    ensures forall j :: 0 <= j < dst.Length && !(at <= j < at + n) ==> dst[j] == old(dst[j])
  {
    n := if |src| <= dst.Length - at then |src| else dst.Length - at;
    forall j | at <= j < at + n {
      dst[j] := src[j - at];
    }
  }

  /**
   * One round of the key-derivation loop: the digest of the previous digest
   * (the bytes just before `start`) followed by the password is copied into
   * `buf` at `start`, by way of the scratch buffer.
   */
  method NextDigest(buf: array<Byte>, scratch: array<Byte>, start: nat, password: seq<Byte>, md5: seq<Byte> -> Digest)
    requires buf != scratch
    requires MD5SumLength <= start && start + MD5SumLength <= buf.Length
    requires scratch.Length == MD5SumLength + |password|
    modifies buf, scratch
    ensures buf[..start + MD5SumLength] == old(buf[..start]) + md5(old(buf[start - MD5SumLength..start]) + password)
  {
    ghost var before := buf[..start];
    var _ := CopyBytes(scratch, 0, buf[start - MD5SumLength..start]);
    var _ := CopyBytes(scratch, MD5SumLength, password);
    assert scratch[..] == before[start - MD5SumLength..] + password;
    var digest := md5(scratch[..]);
    var _ := CopyBytes(buf, start, digest);
    assert buf[..start + MD5SumLength] == before + digest;
  }

  /** Enough digests for a key of `keyLength` bytes, and no more. */
  lemma SegmentsCoverKey(keyLength: nat)
    requires keyLength >= 1
    ensures var n := (keyLength - 1) / MD5SumLength + 1;
      (n - 1) * MD5SumLength < keyLength <= n * MD5SumLength
  {
  }

  /**
   * The key-derivation loop of Cipher.Initialise: as many digests of key
   * material as a key of `keyLength` bytes needs, computed into a buffer one
   * after the other, and the key is the first `keyLength` bytes.
   */
  method DeriveKey(password: seq<Byte>, md5: seq<Byte> -> Digest, keyLength: nat) returns (key: seq<Byte>)
    requires keyLength >= 1
    ensures key == KeyMaterial(password, md5, (keyLength - 1) / MD5SumLength + 1)[..keyLength]
  {
    var segmentLength := (keyLength - 1) / MD5SumLength + 1;
    SegmentsCoverKey(keyLength);
    var buf := new Byte[segmentLength * MD5SumLength];
    var _ := CopyBytes(buf, 0, md5(password));
    assert buf[..MD5SumLength] == KeyMaterial(password, md5, 1);
    var destinationBuf := new Byte[MD5SumLength + |password|];
    var start := 0;
    for i := 1 to segmentLength
      invariant start + MD5SumLength == i * MD5SumLength <= buf.Length
      invariant buf[..start + MD5SumLength] == KeyMaterial(password, md5, i)
    {
      start := start + MD5SumLength;
      NextDigest(buf, destinationBuf, start, password, md5);
    }
    key := buf[..keyLength];
    assert key == buf[..segmentLength * MD5SumLength][..keyLength];
  }

  class Cipher {
    var EncryptionStream: Option<Stream>
    var DecryptionStream: Option<Stream>
    var Key: seq<Byte>
    var IV: seq<Byte>
    var KeyLength: int
    var IVLength: int

    /** A cipher with every field at its zero value. */
    constructor ()
      ensures EncryptionStream == None && DecryptionStream == None
      ensures Key == [] && IV == [] && KeyLength == 0 && IVLength == 0
    {
      EncryptionStream, DecryptionStream := None, None;
      Key, IV := [], [];
      KeyLength, IVLength := 0, 0;
    }

    /**
     * Initialise: a 32-byte key from the password, md5(p) followed by
     * md5(md5(p) + p), and a 16-byte IV length; IV and streams are untouched.
     */
    method Initialise(password: seq<Byte>, md5: seq<Byte> -> Digest)
      modifies this
      ensures KeyLength == 32 && IVLength == 16 && |Key| == KeyLength
      ensures Key == md5(password) + md5(md5(password) + password)
      ensures IV == old(IV)
      ensures EncryptionStream == old(EncryptionStream) && DecryptionStream == old(DecryptionStream)
    {
      KeyLength := 32;
      IVLength := 16;
      Key := DeriveKey(password, md5, KeyLength);
      TwoDigests(password, md5);
    }

    /** Copy: a new cipher with the same key, IV and lengths and no streams; this one is unchanged. */
    method Copy() returns (c: Cipher)
      ensures fresh(c)
      ensures c.Key == Key && c.IV == IV && c.KeyLength == KeyLength && c.IVLength == IVLength
      ensures c.EncryptionStream == None && c.DecryptionStream == None
    {
      c := new Cipher();
      c.Key, c.IV := Key, IV;
      c.KeyLength, c.IVLength := KeyLength, IVLength;
    }
  }

  /* ------------------------------------------------------------ daemon */

  datatype InitError =
    | EmptyListenAddress
    | ListenPortTooLow
    | PasswordTooShort

  /** The shortest password the daemon accepts. */
  const MinPasswordLength := 7

  class Sockd {
    var ListenAddress: string
    var ListenPort: int
    var Password: seq<Byte>
    var cipher: Cipher?

    constructor (listenAddress: string, listenPort: int, password: seq<Byte>)
      ensures ListenAddress == listenAddress && ListenPort == listenPort && Password == password
      ensures cipher == null
    {
      ListenAddress, ListenPort, Password := listenAddress, listenPort, password;
      cipher := null;
    }

    /** The first configuration problem, in the order the daemon checks them. */
    function ConfigError(): (r: Option<InitError>)
      reads this
      ensures r.None? <==> ListenAddress != "" && ListenPort >= 1 && |Password| >= MinPasswordLength
    {
      if ListenAddress == "" then Some(EmptyListenAddress)
      else if ListenPort < 1 then Some(ListenPortTooLow)
      else if |Password| < MinPasswordLength then Some(PasswordTooShort)
      else None
    }

    /**
     * Initialise: refuse a bad configuration and change nothing; otherwise
     * install a new cipher keyed from the password, with no IV and no streams
     * yet (a stream is started later, from a fresh IV).
     */
    method Initialise(md5: seq<Byte> -> Digest) returns (err: Option<InitError>)
      modifies this
      ensures err == old(ConfigError())
      ensures ListenAddress == old(ListenAddress) && ListenPort == old(ListenPort) && Password == old(Password)
      ensures err.Some? ==> cipher == old(cipher)
      ensures err.None? ==>
        && cipher != null && fresh(cipher)
        && cipher.KeyLength == 32 && cipher.IVLength == 16
        && cipher.Key == md5(Password) + md5(md5(Password) + Password)
        && cipher.IV == [] && cipher.EncryptionStream == None && cipher.DecryptionStream == None
    {
      err := ConfigError();
      if err.Some? {
        return;
      }
      var c := new Cipher();
      c.Initialise(Password, md5);
      cipher := c;
    }
  }
}
