/**
 * The packet codec of the DNS daemon (frontend/dnsd/dnsd.go): it reads the
 * queried name out of a raw query and builds the fake "0.0.0.0" answer for a
 * blackholed name. Both work on untrusted bytes without a DNS library; every
 * index below is checked against the length of the packet it reads or writes.
 */
module DnsCodec {
  import opened Wrappers
  import opened Bytes
  import opened Strings

  /** A query shorter than this cannot be a name query. */
  const MinNameQuerySize := 14
  /** A decoded name longer than this is treated as garbage. */
  const MaxDomainNameLength := 1024
  /** Size of the fixed DNS header (RFC 1035 section 4.1.1). */
  const HeaderSize := 12
  /** Flags 0x8180: a standard query response, recursion desired and available, no error. */
  const StandardResponseNoError: seq<Byte> := [129, 128]
  /**
   * The answer record: a compression pointer to offset 12 (the question's name),
   * type A, class IN, TTL 1466, RDLENGTH 4, RDATA 0.0.0.0 (RFC 1035 sections 4.1.3, 4.1.4).
   */
  const BlackHoleAnswer: seq<Byte> := [192, 12, 0, 1, 0, 1, 0, 0, 5, 186, 0, 4, 0, 0, 0, 0]
  /** QTYPE A followed by QCLASS IN. */
  const TypeAClassIN: seq<Byte> := [0, 1, 0, 1]

  // ---------------------------------------------------------------------------
  // Decoding the fixed parts of a DNS message (RFC 1035 section 4.1). The codec
  // itself never decodes; these state what the synthesised answer means.
  // ---------------------------------------------------------------------------

  datatype Header = Header(id: int, flags: int, qdCount: int, anCount: int, nsCount: int, arCount: int)

  /** The 12-byte header at the start of a message. */
  function DecodeHeader(p: seq<Byte>): Option<Header>
  {
    if |p| < HeaderSize then None
    else Some(Header(BigEndian16(p[0], p[1]), BigEndian16(p[2], p[3]), BigEndian16(p[4], p[5]),
                     BigEndian16(p[6], p[7]), BigEndian16(p[8], p[9]), BigEndian16(p[10], p[11])))
  }

  datatype Flags = Flags(qr: bool, opcode: int, aa: bool, tc: bool, rd: bool, ra: bool, z: int, rcode: int)

  /** The fields packed in the 16-bit flags word of the header. */
  function DecodeFlags(f: int): Flags
    requires 0 <= f < 0x1_0000
  {
    Flags(f / 0x8000 == 1, (f / 0x800) % 16, (f / 0x400) % 2 == 1, (f / 0x200) % 2 == 1,
          (f / 0x100) % 2 == 1, (f / 0x80) % 2 == 1, (f / 0x10) % 8, f % 16)
  }

  /** A resource record whose owner name is a compression pointer to `nameOffset`. */
  datatype PointerRecord = PointerRecord(nameOffset: int, rtype: int, rclass: int, ttl: int, rdata: seq<Byte>)

  /**
   * Decodes `p` as exactly one resource record whose name is a compression
   * pointer: NAME (2 bytes, top bits 11), TYPE, CLASS, TTL (4 bytes), RDLENGTH, RDATA.
   */
  function DecodePointerRecord(p: seq<Byte>): Option<PointerRecord>
  {
    if |p| < 12 || p[0] < 192 then None
    else if |p| != 12 + BigEndian16(p[10], p[11]) then None
    else Some(PointerRecord(BigEndian16(p[0], p[1]) - 0xC000, BigEndian16(p[2], p[3]),
                            BigEndian16(p[4], p[5]), BigEndian32(p[6], p[7], p[8], p[9]), p[12..]))
  }

  /**
   * The position just past the encoded name that starts at `pos`: labels, each
   * preceded by its length below 64, ended by a zero byte (RFC 1035 section 3.1).
   * None when the bytes run out first or a length byte is not a plain length.
   */
  function NameEnd(p: seq<Byte>, pos: nat): (r: Option<nat>)
    ensures r.Some? ==> pos < r.value <= |p| && p[r.value - 1] == 0
    decreases |p| - pos
  {
    if pos >= |p| then None
    else if p[pos] == 0 then Some(pos + 1)
    else if p[pos] >= 64 then None
    else NameEnd(p, pos + 1 + p[pos])
  }

  /** Where the (single) question of a query ends: its name, QTYPE and QCLASS. */
  function QuestionEnd(p: seq<Byte>): (r: Option<nat>)
    ensures r.Some? ==> HeaderSize + 5 <= r.value <= |p|
  {
    match NameEnd(p, HeaderSize)
    case None => None
    case Some(e) => if e + 4 <= |p| then Some(e + 4) else None
  }

  /** The name walk depends only on the bytes it walks over. */
  lemma {:induction false} NameEndLocal(p: seq<Byte>, p': seq<Byte>, pos: nat, e: nat)
    requires NameEnd(p, pos) == Some(e)
    requires e <= |p'| && p[pos..e] == p'[pos..e]
    ensures NameEnd(p', pos) == Some(e)
    decreases |p| - pos
  {
    assert p[pos..e][0] == p[pos] && p'[pos..e][0] == p'[pos];
    if p[pos] != 0 {
      var next := pos + 1 + p[pos];
      assert p[next..e] == p[pos..e][next - pos..];
      assert p'[next..e] == p'[pos..e][next - pos..];
      NameEndLocal(p, p', next, e);
    }
  }

  // ---------------------------------------------------------------------------
  // RespondWith0 (frontend/dnsd/dnsd.go:236-255)
  // ---------------------------------------------------------------------------

  /**
   * The blackhole answer for `query` as the daemon lays it out: the query with
   * its transaction ID kept, the flags replaced by 0x8180, ANCOUNT set to one,
   * every other byte kept, and BlackHoleAnswer appended at the very end.
   * Empty for anything shorter than MinNameQuerySize.
   */
  function BlackholeResponse(query: seq<Byte>): seq<Byte>
  {
    if |query| < MinNameQuerySize then []
    else query[..2] + StandardResponseNoError + query[4..6] + [0, 1] + query[8..] + BlackHoleAnswer
  }

  /** Go's copy(dst[at:], src) where src fits: the bytes at `at` onwards become `src`, the rest stay. */
  method CopyInto(dst: array<Byte>, at: nat, src: seq<Byte>)
    requires at + |src| <= dst.Length
    modifies dst
    ensures forall k :: 0 <= k < dst.Length ==>
      dst[k] == if at <= k < at + |src| then src[k - at] else old(dst[k])
  {
    var i := 0;
    while i < |src|
      invariant 0 <= i <= |src|
      invariant forall k :: 0 <= k < dst.Length ==>
        dst[k] == if at <= k < at + i then src[k - at] else old(dst[k])
    {
      dst[at + i] := src[i];
      i := i + 1;
    }
  }

  /** Builds the blackhole answer in a fresh buffer, as dnsd.go does. */
  method RespondWith0(query: seq<Byte>) returns (answer: seq<Byte>)
    ensures answer == BlackholeResponse(query)
  {
    if |query| < MinNameQuerySize {
      return [];
    }
    var packet := new Byte[2 + 2 + |query| - 4 + |BlackHoleAnswer|];
    // Match the transaction ID of the query.
    packet[0] := query[0];
    packet[1] := query[1];
    CopyInto(packet, 2, StandardResponseNoError);
    CopyInto(packet, 4, query[4..]);
    // Exactly one answer record.
    packet[6] := 0;
    packet[7] := 1;
    var base := packet.Length - |BlackHoleAnswer|;
    CopyInto(packet, base, BlackHoleAnswer);
    answer := packet[..];
    BlackholeResponseLayout(query);
    ghost var r := BlackholeResponse(query);
    forall k | 0 <= k < |r| ensures answer[k] == r[k] {
      if k < 2 {
        assert r[k] == r[0..2][k];
      } else if k < 4 {
        assert r[k] == r[2..4][k - 2];
      } else if k < 6 {
        assert r[k] == r[4..6][k - 4];
      } else if k < 8 {
        assert r[k] == r[6..8][k - 6];
      } else if k < base {
        assert r[k] == r[8..base][k - 8];
      } else {
        assert r[k] == r[base..][k - base];
      }
    }
  }

  /** Byte-level layout of the answer: where each part of it comes from. */
  lemma BlackholeResponseLayout(query: seq<Byte>)
    requires |query| >= MinNameQuerySize
    ensures var r := BlackholeResponse(query);
      && |r| == |query| + 16
      && r[0..2] == query[0..2]
      && r[2..4] == [129, 128]
      && r[4..6] == query[4..6]
      && r[6..8] == [0, 1]
      && r[8..|query|] == query[8..]
      && r[|query|..] == BlackHoleAnswer
  {
    var r := BlackholeResponse(query);
    assert r == query[..2] + StandardResponseNoError + query[4..6] + [0, 1] + query[8..] + BlackHoleAnswer;
  }

  /**
   * What a resolver reads back: the same ID and section counts as the query
   * except ANCOUNT = 1, flags of a successful recursive response, and a final
   * record naming the question's name (offset 12) as type A, class IN,
   * TTL 1466, address 0.0.0.0.
   */
  lemma BlackholeResponseDecodes(query: seq<Byte>)
    requires |query| >= MinNameQuerySize
    ensures var r := BlackholeResponse(query);
      var q := DecodeHeader(query).value;
      && DecodeHeader(r) == Some(Header(q.id, 0x8180, q.qdCount, 1, q.nsCount, q.arCount))
      && DecodeFlags(0x8180) == Flags(true, 0, false, false, true, true, 0, 0)
      && DecodePointerRecord(r[|r| - 16..]) == Some(PointerRecord(HeaderSize, 1, 1, 1466, [0, 0, 0, 0]))
  {
    BlackholeResponseLayout(query);
    var r := BlackholeResponse(query);
    assert r[|r| - 16..] == BlackHoleAnswer;
    assert r[..12] == query[..2] + [129, 128] + query[4..6] + [0, 1] + query[8..12];
  }

  /**
   * The answer as evidently intended: the 0.0.0.0 record placed directly after
   * the question, so that it is the record a resolver reads as the answer,
   * and whatever followed the question in the query (an EDNS OPT record, for
   * one) kept after it, in the additional section the query's counts describe.
   * Empty where the question cannot be walked.
   */
  function BlackholeResponseAfterQuestion(query: seq<Byte>): seq<Byte>
  {
    if |query| < MinNameQuerySize then []
    else match QuestionEnd(query)
      case None => []
      case Some(e) =>
        query[..2] + StandardResponseNoError + query[4..6] + [0, 1] + query[8..e] + BlackHoleAnswer + query[e..]
  }

  /**
   * In the corrected answer the record that starts the answer section, right
   * after the unchanged question, is the 0.0.0.0 record, and the header
   * announces exactly one answer.
   */
  lemma AnswerSectionHoldsBlackhole(query: seq<Byte>, e: nat)
    requires |query| >= MinNameQuerySize && QuestionEnd(query) == Some(e)
    ensures var r := BlackholeResponseAfterQuestion(query);
      && |r| == |query| + 16
      && QuestionEnd(r) == Some(e)
      && r[12..e] == query[12..e]
      && DecodePointerRecord(r[e..e + 16]) == Some(PointerRecord(HeaderSize, 1, 1, 1466, [0, 0, 0, 0]))
      && DecodeHeader(r).value.anCount == 1
      && r[e + 16..] == query[e..]
  {
    var r := BlackholeResponseAfterQuestion(query);
    AfterQuestionLayout(query, e);
    var n := NameEnd(query, HeaderSize).value;
    assert n + 4 == e;
    assert query[HeaderSize..n] == query[12..e][..n - HeaderSize];
    assert r[HeaderSize..n] == r[12..e][..n - HeaderSize];
    NameEndLocal(query, r, HeaderSize, n);
  }

  /** Where the pieces of the corrected answer lie. */
  lemma AfterQuestionLayout(query: seq<Byte>, e: nat)
    requires |query| >= MinNameQuerySize && QuestionEnd(query) == Some(e)
    ensures var r := BlackholeResponseAfterQuestion(query);
      && |r| == |query| + 16
      && r[6] == 0 && r[7] == 1
      && r[12..e] == query[12..e]
      && r[e..e + 16] == BlackHoleAnswer
      && r[e + 16..] == query[e..]
  {
    var r := BlackholeResponseAfterQuestion(query);
    var head := query[..2] + StandardResponseNoError + query[4..6] + [0, 1] + query[8..e];
    assert r == head + BlackHoleAnswer + query[e..];
    assert r[..e] == head;
    assert r[12..e] == query[12..e];
    assert r[e..e + 16] == BlackHoleAnswer;
    assert r[e + 16..] == query[e..];
  }

  /** When nothing follows the question, RespondWith0's layout is already the intended one. */
  lemma AfterQuestionAgreesWithoutTrailer(query: seq<Byte>)
    requires |query| >= MinNameQuerySize && QuestionEnd(query) == Some(|query|)
    ensures BlackholeResponseAfterQuestion(query) == BlackholeResponse(query)
  {
    assert query[|query|..] == [];
    assert query[8..|query|] == query[8..];
  }

  // ---------------------------------------------------------------------------
  // ExtractDomainName (frontend/dnsd/dnsd.go:264-303)
  // ---------------------------------------------------------------------------

  /**
   * Bytes that stand where a full stop belongs once the name is read as text:
   * label lengths and other control bytes up to ',' (44), the bytes ':' to '@'
   * (58 to 64) and '[' to '`' (91 to 96).
   */
  predicate IsSeparatorByte(b: Byte)
  {
    b <= 44 || (58 <= b <= 64) || (91 <= b <= 96)
  }

  /** The character a name byte becomes in the extracted text. */
  function NameChar(b: Byte): char
  {
    if IsSeparatorByte(b) then '.' else b as char
  }

  /** The text of a run of name bytes: one character per byte. */
  function NameText(bytes: seq<Byte>): string
  {
    seq(|bytes|, k requires 0 <= k < |bytes| => NameChar(bytes[k]))
  }

  /** Where bytes.Index finds TypeAClassIN in the packet from offset 13 on. */
  function MarkerIndex(packet: seq<Byte>): int
    requires |packet| >= 13
  {
    IndexOf(packet[13..], TypeAClassIN)
  }

  /**
   * The name the query asks for, read as dnsd.go reads it: the bytes from
   * offset 13 (just past the first label's length byte) up to, but not
   * including, the byte before the marker, each separator turned into '.'.
   */
  function QuestionName(packet: seq<Byte>): Option<string>
  {
    if |packet| < MinNameQuerySize then None
    else
      var i := MarkerIndex(packet);
      if i < 1 || i - 1 > MaxDomainNameLength then None
      else Some(NameText(packet[13..13 + i - 1]))
  }

  /** The shortening goes on while the first '.' sits after the first character and before the last. */
  predicate Continues(name: string)
  {
    var i := IndexOfChar(name, '.');
    1 <= i && i != |name| - 1
  }

  /** `name` with everything up to and including its first '.' removed. */
  function DropFirstLabel(name: string): (r: string)
    requires Continues(name)
    ensures 0 < |r| < |name| - 1 && name[|name| - |r| - 1] == '.'
    ensures forall j :: 0 <= j < |r| ==> r[j] == name[|name| - |r| + j]
  {
    name[IndexOfChar(name, '.') + 1..]
  }

  /** What DropFirstLabel removes is exactly the first label and the '.' after it. */
  lemma DropFirstLabelCut(name: string)
    requires Continues(name)
    ensures var cut := |name| - |DropFirstLabel(name)| - 1;
      1 <= cut && '.' !in name[..cut] && name[cut] == '.'
  {
    IndexOfCharFirst(name, '.');
  }

  /** The name followed by its successively shortened suffixes, as ExtractDomainName's final loop emits them. */
  function SuffixChain(name: string): seq<string>
    decreases |name|
  {
    [name] + if Continues(name) then SuffixChain(DropFirstLabel(name)) else []
  }

  /** One step of the chain: the name itself, then the chain of its shortened form, if any. */
  lemma SuffixChainUnfold(name: string)
    ensures |SuffixChain(name)| >= 1 && SuffixChain(name)[0] == name
    ensures Continues(name) ==> SuffixChain(name)[1..] == SuffixChain(DropFirstLabel(name))
    ensures !Continues(name) ==> SuffixChain(name) == [name]
  {
  }

  /** Everything ExtractDomainName returns for `packet`. */
  function DomainNames(packet: seq<Byte>): seq<string>
  {
    match QuestionName(packet)
    case None => []
    case Some(name) => SuffixChain(name)
  }

  /**
   * Copies the name bytes packet[13..end) into a fresh buffer and rewrites each
   * separator byte in it to '.', giving the name as text.
   */
  method RestoreFullStops(packet: seq<Byte>, end: nat) returns (domainName: string)
    requires 13 <= end <= |packet|
    ensures domainName == NameText(packet[13..end])
  {
    var nameBytes := new Byte[end - 13];
    var i := 0;
    while i < nameBytes.Length
      invariant 0 <= i <= nameBytes.Length
      invariant forall k :: 0 <= k < i ==> nameBytes[k] == packet[13 + k]
    {
      nameBytes[i] := packet[13 + i];
      i := i + 1;
    }
    i := 0;
    while i < nameBytes.Length
      invariant 0 <= i <= nameBytes.Length
      invariant forall k :: 0 <= k < i ==> nameBytes[k] as char == NameChar(packet[13 + k])
      invariant forall k :: i <= k < nameBytes.Length ==> nameBytes[k] == packet[13 + k]
    {
      if IsSeparatorByte(nameBytes[i]) {
        nameBytes[i] := 46;
      }
      i := i + 1;
    }
    domainName := seq(nameBytes.Length, k requires 0 <= k < nameBytes.Length reads nameBytes => nameBytes[k] as char);
  }

  /** Extracts the queried name and its successively shortened suffixes. */
  method ExtractDomainName(packet: seq<Byte>) returns (ret: seq<string>)
    ensures ret == DomainNames(packet)
  {
    ret := [];
    if |packet| < MinNameQuerySize {
      return;
    }
    var indexTypeAClassIN := IndexOf(packet[13..], TypeAClassIN);
    if indexTypeAClassIN < 1 {
      return;
    }
    indexTypeAClassIN := indexTypeAClassIN + 13;
    // The byte right before the marker ends the name and is dropped.
    var domainName := RestoreFullStops(packet, indexTypeAClassIN - 1);
    if |domainName| > MaxDomainNameLength {
      return;
    }
    assert QuestionName(packet) == Some(domainName);
    ghost var name := domainName;
    ret := [domainName];
    ChainRestStart(domainName);
    // Keep dropping the first label while the first '.' is neither the first nor the last character.
    while true
      invariant ret + SuffixChain(domainName)[1..] == SuffixChain(name)
      decreases |domainName|
    {
      var index := IndexOfChar(domainName, '.');
      if index < 1 || index == |domainName| - 1 {
        ChainRestStop(ret, domainName);
        break;
      }
      ChainRestStep(ret, domainName);
      domainName := domainName[index + 1..];
      ret := ret + [domainName];
    }
  }

  /** The chain is its name followed by the rest of it. */
  lemma ChainRestStart(name: string)
    ensures [name] + SuffixChain(name)[1..] == SuffixChain(name)
  {
  }

  /** Emitting the shortened name moves it from the rest of the chain to what has been emitted. */
  lemma ChainRestStep(emitted: seq<string>, name: string)
    requires Continues(name)
    ensures var shorter := DropFirstLabel(name);
      (emitted + [shorter]) + SuffixChain(shorter)[1..] == emitted + SuffixChain(name)[1..]
  {
    var shorter := DropFirstLabel(name);
    assert SuffixChain(name)[1..] == SuffixChain(shorter);
    assert SuffixChain(shorter) == [shorter] + SuffixChain(shorter)[1..];
  }

  /** Where the name stops, nothing of the chain is left to emit. */
  lemma ChainRestStop(emitted: seq<string>, name: string)
    requires !Continues(name)
    ensures emitted + SuffixChain(name)[1..] == emitted
  {
    assert SuffixChain(name) == [name];
  }

  // ---------------------------------------------------------------------------
  // Properties of the extraction
  // ---------------------------------------------------------------------------

  /**
   * Nothing is extracted exactly when the packet is shorter than 14 bytes, the
   * marker is absent from packet[13..] or found only at its start, or the name
   * would be longer than 1024 characters.
   */
  lemma DomainNamesEmpty(packet: seq<Byte>)
    ensures DomainNames(packet) == [] <==>
      (|packet| < MinNameQuerySize || MarkerIndex(packet) < 1 || MarkerIndex(packet) - 1 > MaxDomainNameLength)
  {
    if QuestionName(packet).Some? {
      SuffixChainUnfold(QuestionName(packet).value);
    }
  }

  /**
   * When something is extracted, the marker sits at absolute offset m (its
   * first occurrence from offset 13, m >= 14), and the first name is
   * packet[13 .. m-1) with every separator byte read as '.'.
   */
  lemma DomainNamesFirst(packet: seq<Byte>)
    requires DomainNames(packet) != []
    ensures |packet| >= MinNameQuerySize
    ensures var m := 13 + MarkerIndex(packet);
      && 14 <= m && OccursAt(packet, TypeAClassIN, m)
      && (forall k :: 13 <= k < m ==> !OccursAt(packet, TypeAClassIN, k))
      && |DomainNames(packet)[0]| == m - 14 <= MaxDomainNameLength
      && (forall k :: 0 <= k < m - 14 ==> DomainNames(packet)[0][k] == NameChar(packet[13 + k]))
  {
    DomainNamesEmpty(packet);
    var i := MarkerIndex(packet);
    var tail := packet[13..];
    IndexOfFirst(tail, TypeAClassIN);
    assert OccursAt(tail, TypeAClassIN, i);
    assert packet[13 + i..13 + i + 4] == tail[i..i + 4];
    forall k | 13 <= k < 13 + i ensures !OccursAt(packet, TypeAClassIN, k) {
      assert !OccursAt(tail, TypeAClassIN, k - 13);
      assert tail[k - 13..k - 13 + 4] == packet[k..k + 4];
    }
    SuffixChainUnfold(QuestionName(packet).value);
  }

  /** `a` is a suffix of `b`. */
  ghost predicate IsSuffix(a: string, b: string)
  {
    |a| <= |b| && forall j :: 0 <= j < |a| ==> a[j] == b[|b| - |a| + j]
  }

  /** Element k of the chain is element k-1 shortened by one label. */
  ghost predicate LinkedAt(c: seq<string>, k: int)
    requires 0 < k < |c|
  {
    Continues(c[k - 1]) && c[k] == DropFirstLabel(c[k - 1])
  }

  /**
   * The chain starts with the name; each later element is its predecessor with
   * the first label and its '.' dropped; the chain stops at the first element
   * whose first '.' is missing, leading or last.
   */
  lemma {:induction false} SuffixChainLinks(name: string)
    ensures var c := SuffixChain(name);
      && |c| >= 1 && c[0] == name
      && !Continues(c[|c| - 1])
      && (forall k :: 0 < k < |c| ==> LinkedAt(c, k))
    decreases |name|
  {
    SuffixChainUnfold(name);
    if Continues(name) {
      var d := DropFirstLabel(name);
      SuffixChainLinks(d);
      var c := SuffixChain(name);
      var c' := SuffixChain(d);
      assert c == [name] + c';
      forall k | 1 < k < |c| ensures LinkedAt(c, k) {
        assert LinkedAt(c', k - 1);
        assert c[k - 1] == c'[k - 2] && c[k] == c'[k - 1];
      }
    }
  }

  /** Every later element of the chain is a strictly shorter suffix of the name. */
  lemma {:induction false} SuffixChainSuffixes(name: string)
    ensures var c := SuffixChain(name);
      forall k :: 0 < k < |c| ==> |c[k]| < |name| && IsSuffix(c[k], name)
    decreases |name|
  {
    SuffixChainUnfold(name);
    if Continues(name) {
      var d := DropFirstLabel(name);
      SuffixChainSuffixes(d);
      var c := SuffixChain(name);
      var c' := SuffixChain(d);
      assert c == [name] + c';
      forall k | 0 < k < |c| ensures |c[k]| < |name| && IsSuffix(c[k], name) {
        assert c[k] == c'[k - 1];
        if k > 1 {
          assert IsSuffix(c'[k - 1], d);
        }
      }
    }
  }

  /** A name without '.' ends the chain. */
  lemma SuffixChainLast(name: string)
    requires '.' !in name
    ensures SuffixChain(name) == [name]
  {
  }

  /** The sample A query for "github.com" defined in dnsd.go, without a TCP length prefix. */
  const GithubComUDPQuery: seq<Byte> := GithubHeader + GithubQuestion + GithubOpt

  /** Its header: ID 0xe575, flags 0x0120 (RD, AD), QDCOUNT 1, ARCOUNT 1. */
  const GithubHeader: seq<Byte> := [0xe5, 0x75, 0x01, 0x20, 0x00, 0x01, 0x00, 0x00, 0x00, 0x00, 0x00, 0x01]

  /** Its question: the name 6 "github" 3 "com" 0, QTYPE A, QCLASS IN. */
  const GithubQuestion: seq<Byte> :=
    [0x06, 0x67, 0x69, 0x74, 0x68, 0x75, 0x62, 0x03, 0x63, 0x6f, 0x6d, 0x00, 0x00, 0x01, 0x00, 0x01]

  /** Its additional section: an EDNS OPT record (root name, TYPE 41, UDP size 4096). */
  const GithubOpt: seq<Byte> := [0x00, 0x00, 0x29, 0x10, 0x00, 0x00, 0x00, 0x00, 0x00, 0x00, 0x00]

  /** In the sample query the marker is found 11 bytes past offset 13, right after the name's zero byte. */
  lemma GithubQueryMarker()
    ensures MarkerIndex(GithubComUDPQuery) == 11
  {
    var q := GithubComUDPQuery;
    assert q[12..28] == GithubQuestion;
    var tail := q[13..];
    assert tail[11..15] == q[24..28] == GithubQuestion[12..16];
    assert GithubQuestion[12..16] == TypeAClassIN;
    assert OccursAt(tail, TypeAClassIN, 11);
    forall k | 0 <= k < 11 ensures !OccursAt(tail, TypeAClassIN, k) {
      assert tail[k..k + 4][1] == tail[k + 1] == q[12..28][k + 2] == GithubQuestion[k + 2];
    }
    IndexOfAt(tail, TypeAClassIN, 11);
  }

  /** The sample query's name bytes read as "github.com". */
  lemma GithubQueryName()
    ensures NameText(GithubComUDPQuery[13..23]) == "github.com"
  {
    GithubQueryNameBytes();
  }

  /** Offsets 13 to 22 of the sample query: "github", the length byte 3, "com". */
  lemma GithubQueryNameBytes()
    ensures GithubComUDPQuery[13..23] == [0x67, 0x69, 0x74, 0x68, 0x75, 0x62, 0x03, 0x63, 0x6f, 0x6d]
  {
    assert GithubComUDPQuery[13..23] == GithubQuestion[1..11];
  }

  /** A name made of two labels yields itself and then its last label. */
  lemma TwoLabelChain(first: string, last: string)
    requires |first| > 0 && |last| > 0 && '.' !in first && '.' !in last
    ensures SuffixChain(first + "." + last) == [first + "." + last, last]
  {
    var name := first + "." + last;
    assert name[..|first|] == first && name[|first| + 1..] == last;
    IndexOfCharAt(name, '.', |first|);
    SuffixChainLast(last);
  }

  /** The sample query yields the name and then its last label: "github.com", "com". */
  lemma GithubQueryDomainNames()
    ensures DomainNames(GithubComUDPQuery) == ["github.com", "com"]
  {
    GithubQueryChain();
    GithubQueryName();
    GithubComChain();
  }

  /** The sample query's names are the chain of the bytes at offsets 13 to 22. */
  lemma GithubQueryChain()
    ensures DomainNames(GithubComUDPQuery) == SuffixChain(NameText(GithubComUDPQuery[13..23]))
  {
    GithubQueryMarker();
  }

  /** "github.com" is two labels, so its chain ends at "com". */
  lemma GithubComChain()
    ensures SuffixChain("github.com") == ["github.com", "com"]
  {
    assert "github.com" == "github" + "." + "com";
    TwoLabelChain("github", "com");
  }

  /**
   * The sample query carries an EDNS OPT record after its question, which
   * ends at offset 28 (GithubQueryQuestionEnd). In the answer RespondWith0
   * builds, that record still directly follows the question, so the record a
   * resolver reads as the answer (offset 28) has TYPE 41 (OPT), and the
   * 0.0.0.0 record ends up last, in the additional section.
   */
  lemma EdnsQueryAnswerMisplaced()
    ensures var r := BlackholeResponse(GithubComUDPQuery);
      && |r| == 55
      && r[28..44] != BlackHoleAnswer
      && BigEndian16(r[29], r[30]) == 41
      && r[39..] == BlackHoleAnswer
  {
    GithubResponseBytes();
    var r := BlackholeResponse(GithubComUDPQuery);
    assert r[28..44][1] == r[29];
  }

  /** The answer to the sample query: 55 bytes, the OPT record's TYPE at 29-30, the 0.0.0.0 record last. */
  lemma GithubResponseBytes()
    ensures var r := BlackholeResponse(GithubComUDPQuery);
      |r| == 55 && r[29] == 0 && r[30] == 41 && r[39..] == BlackHoleAnswer
  {
    var p := GithubComUDPQuery;
    BlackholeResponseLayout(p);
    var r := BlackholeResponse(p);
    assert p[29] == 0 && p[30] == 0x29;
    assert r[8..39] == p[8..];
    assert r[29] == r[8..39][21] && r[30] == r[8..39][22];
  }

  /** The sample query's question ends at offset 28 and one additional record follows. */
  lemma GithubQueryQuestionEnd()
    ensures QuestionEnd(GithubComUDPQuery) == Some(28)
    ensures DecodeHeader(GithubComUDPQuery).Some? && DecodeHeader(GithubComUDPQuery).value.arCount == 1
  {
    var p := GithubComUDPQuery;
    assert p[12] == 6 && p[19] == 3 && p[23] == 0 && p[10] == 0 && p[11] == 1;
    assert NameEnd(p, 23) == Some(24);
    assert NameEnd(p, 19) == Some(24);
    assert NameEnd(p, 12) == Some(24);
  }
}
