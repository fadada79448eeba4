// Socket control messages (golang.org/x/sys/unix/sockcmsg_unix.go), for platforms
// that store the least significant byte first.
module Sockcmsgs {
  type byte = x: int | 0 <= x < 256

  // What differs between platforms: the width of the header's length field and of
  // an int, in bytes, the alignment, and the values of SOL_SOCKET and SCM_RIGHTS.
  datatype Platform = Platform(lenWidth: nat, intWidth: nat, align: nat, solSocket: int, scmRights: int)
  {
    ghost predicate Valid() {
      && lenWidth in {4, 8} && intWidth in {4, 8} && lenWidth <= intWidth && align in {4, 8}
      && 0 <= solSocket < 0x8000_0000 && 0 <= scmRights < 0x8000_0000
    }

    // Length, level and type.
    function HeaderSize(): nat {
      lenWidth + 8
    }

    function IntLimit(): nat {
      if intWidth == 4 then 0x8000_0000 else 0x8000_0000_0000_0000
    }
  }

  // ---- Alignment ----

  // The mask ^(salign - 1) takes away what is over a multiple of salign.
  lemma MaskRounds(x: bv64)
    ensures x & !3 == x - x % 4
    ensures x & !7 == x - x % 8
  {
  }

  function CmsgAlignOf(p: Platform, salen: int): int
    requires p.align > 0
  {
    var x := salen + p.align - 1;
    x - x % p.align
  }

  // It is the least multiple that is not less.
  lemma AlignIsLeast(p: Platform, n: int, m: int)
    requires p.Valid()
    ensures var r := CmsgAlignOf(p, n);
            r % p.align == 0 && n <= r < n + p.align && (n <= m && m % p.align == 0 ==> r <= m)
  {
  }

  lemma AlignIsUp(p: Platform, n: int)
    requires p.Valid()
    ensures CmsgAlignOf(p, n) >= n
  {
  }

  lemma AlignOfSum(p: Platform, m: int, n: int)
    requires p.Valid() && m % p.align == 0
    ensures CmsgAlignOf(p, m + n) == m + CmsgAlignOf(p, n)
  {
  }

  function CmsgLen(p: Platform, datalen: int): int
    requires p.align > 0
  {
    CmsgAlignOf(p, p.HeaderSize()) + datalen
  }

  function CmsgSpace(p: Platform, datalen: int): int
    requires p.align > 0
  {
    CmsgAlignOf(p, p.HeaderSize()) + CmsgAlignOf(p, datalen)
  }

  // ---- Numbers in memory ----

  function LittleEndian(n: nat, width: nat): (bs: seq<byte>)
    ensures |bs| == width
  {
    if width == 0 then [] else [n % 256] + LittleEndian(n / 256, width - 1)
  }

  function Number(bs: seq<byte>): nat {
    if bs == [] then 0 else bs[0] + 256 * Number(bs[1..])
  }

  function Power256(width: nat): nat {
    if width == 0 then 1 else 256 * Power256(width - 1)
  }

  lemma {:induction false} NumberOfLittleEndian(n: nat, width: nat)
    requires n < Power256(width)
    ensures Number(LittleEndian(n, width)) == n
  {
    if width > 0 {
      NumberOfLittleEndian(n / 256, width - 1);
      assert LittleEndian(n, width)[1..] == LittleEndian(n / 256, width - 1);
    }
  }

  // The least significant byte comes first.
  lemma LeastFirst(bs: seq<byte>)
    requires |bs| == 4
    ensures Number(bs) == bs[0] as int + 0x100 * bs[1] as int + 0x1_0000 * bs[2] as int + 0x100_0000 * bs[3] as int
  {
    assert bs[1..][1..] == bs[2..] && bs[2..][1..] == bs[3..] && bs[3..][1..] == [];
    assert Number(bs[3..]) == bs[3];
    assert Number(bs[2..]) == bs[2] + 256 * Number(bs[3..]);
    assert Number(bs[1..]) == bs[1] + 256 * Number(bs[2..]);
  }

  // int32(v), as the 32 bits stored and as the number read back.
  function Bits32(v: int): nat {
    v % 0x1_0000_0000
  }

  function Signed32(n: nat): int {
    if n < 0x8000_0000 then n else n - 0x1_0000_0000
  }

  lemma Bits32RoundTrip(v: int)
    ensures Number(LittleEndian(Bits32(v), 4)) == Bits32(v)
    ensures -0x8000_0000 <= v < 0x8000_0000 ==> Signed32(Bits32(v)) == v
  {
    assert Power256(4) == 0x1_0000_0000;
    NumberOfLittleEndian(Bits32(v), 4);
  }

  // int(n) of a length field.
  function ToInt(p: Platform, n: nat): int {
    if n < p.IntLimit() || p.lenWidth < p.intWidth then n else n - 2 * p.IntLimit()
  }

  // ---- Messages ----

  datatype Message = Message(len: nat, level: int, typ: int, data: seq<byte>)

  // EINVAL, or a slice or index out of range.
  datatype Result<T> = Ok(value: T) | Invalid | Panic

  function Zeros(n: nat): (bs: seq<byte>)
    ensures |bs| == n
  {
    seq(n, _ => 0)
  }

  function Descriptors(fds: seq<int>): (bs: seq<byte>)
    ensures |bs| == 4 * |fds|
  {
    if fds == [] then [] else LittleEndian(Bits32(fds[0]), 4) + Descriptors(fds[1..])
  }

  function Header(p: Platform, len: nat, level: nat, typ: nat): (bs: seq<byte>)
    ensures |bs| == p.HeaderSize()
  {
    LittleEndian(len, p.lenWidth) + LittleEndian(level, 4) + LittleEndian(typ, 4)
  }

  // Its length and that of its buffer fit in an int.
  ghost predicate Fits(p: Platform, fds: seq<int>) {
    p.Valid() && CmsgSpace(p, 4 * |fds|) < 0x8000_0000
  }

  // The buffer UnixRights makes.
  function Rights(p: Platform, fds: seq<int>): (bs: seq<byte>)
    requires p.align > 0 && p.solSocket >= 0 && p.scmRights >= 0
    ensures |bs| == CmsgSpace(p, 4 * |fds|)
  {
    var n := 4 * |fds|;
    var body := CmsgAlignOf(p, p.HeaderSize());
    Header(p, CmsgLen(p, n), p.solSocket, p.scmRights) + Zeros(body - p.HeaderSize())
    + Descriptors(fds) + Zeros(CmsgAlignOf(p, n) - n)
  }

  function HeaderAndData(p: Platform, b: seq<byte>): Result<Message>
    requires p.Valid() && |b| >= CmsgLen(p, 0)
  {
    var w := p.lenWidth;
    var len := Number(b[..w]);
    var from := CmsgAlignOf(p, p.HeaderSize());
    if len < p.HeaderSize() || ToInt(p, len) > |b| then Invalid
    else if from > len || len > |b| then Panic
    else Ok(Message(len, Signed32(Number(b[w..w + 4])), Signed32(Number(b[w + 4..w + 8])), b[from..len]))
  }

  // The slice is out of range exactly for a length that reaches into the padding
  // after the header only, or that is no int at all; and the header is refused exactly
  // for a length less than its own or more than there is.
  lemma HeaderPanicsExactly(p: Platform, b: seq<byte>)
    requires p.Valid() && |b| >= CmsgLen(p, 0) && |b| < p.IntLimit()
    ensures var len := Number(b[..p.lenWidth]);
            HeaderAndData(p, b).Panic? <==>
              (p.HeaderSize() <= len < CmsgAlignOf(p, p.HeaderSize())) || (p.IntLimit() <= len && p.lenWidth == p.intWidth)
    ensures var len := Number(b[..p.lenWidth]);
            HeaderAndData(p, b).Invalid? <==>
              len < p.HeaderSize() || (|b| < len && !(p.IntLimit() <= len && p.lenWidth == p.intWidth))
  {
    var len := Number(b[..p.lenWidth]);
    NumberIsBelow(b[..p.lenWidth]);
    assert Power256(4) == 0x1_0000_0000;
    assert Power256(8) == 0x1_0000_0000_0000_0000;
  }

  lemma {:induction false} NumberIsBelow(bs: seq<byte>)
    ensures Number(bs) < Power256(|bs|)
  {
    if bs != [] {
      NumberIsBelow(bs[1..]);
    }
  }

  function ParseMessages(p: Platform, b: seq<byte>): Result<seq<Message>>
    requires p.Valid() && |b| < p.IntLimit()
    decreases |b|
  {
    if |b| < CmsgLen(p, 0) then Ok([])
    else
      match HeaderAndData(p, b)
      case Invalid => Invalid
      case Panic => Panic
      case Ok(m) =>
        var k := CmsgAlignOf(p, ToInt(p, m.len));
        if k >= |b| then Ok([m])
        else
          match ParseMessages(p, b[k..])
          case Ok(ms) => Ok([m] + ms)
          case other => other
  }

  function Decoded(data: seq<byte>): seq<int>
    requires |data| % 4 == 0
  {
    if data == [] then [] else [Signed32(Number(data[..4]))] + Decoded(data[4..])
  }

  function ParseRights(p: Platform, m: Message): Result<seq<int>> {
    if m.level != p.solSocket || m.typ != p.scmRights then Invalid
    else if |m.data| % 4 != 0 then Panic
    else Ok(Decoded(m.data))
  }

  // ---- Round trips ----

  // The message in a buffer of UnixRights.
  function MessageOf(p: Platform, fds: seq<int>): Message
    requires p.Valid()
  {
    Message(CmsgLen(p, 4 * |fds|), p.solSocket, p.scmRights, Descriptors(fds))
  }

  function RightsOfAll(p: Platform, fdss: seq<seq<int>>): seq<byte>
    requires p.Valid()
  {
    if fdss == [] then [] else Rights(p, fdss[0]) + RightsOfAll(p, fdss[1..])
  }

  function MessagesOf(p: Platform, fdss: seq<seq<int>>): seq<Message>
    requires p.Valid()
  {
    if fdss == [] then [] else [MessageOf(p, fdss[0])] + MessagesOf(p, fdss[1..])
  }

  // A part at the end of what s begins with.
  lemma Cut(s: seq<byte>, begin: seq<byte>, x: seq<byte>, y: seq<byte>)
    requires begin <= s && begin == x + y
    ensures x <= s && |begin| == |x| + |y| <= |s| && s[|x|..|begin|] == y
  {
  }

  lemma Layout(s: seq<byte>, a: seq<byte>, b: seq<byte>, c: seq<byte>, z: seq<byte>, d: seq<byte>, rest: seq<byte>,
               w: nat, from: nat, len: nat)
    requires s == a + b + c + z + d + rest
    requires |a| == w && |b| == 4 && |c| == 4 && w + 8 + |z| == from && from + |d| == len
    ensures len <= |s| && s[..w] == a && s[w..w + 4] == b && s[w + 4..w + 8] == c && s[from..len] == d
  {
    Cut(s, s, a + b + c + z + d, rest);
    Cut(s, a + b + c + z + d, a + b + c + z, d);
    Cut(s, a + b + c + z, a + b + c, z);
    Cut(s, a + b + c, a + b, c);
    Cut(s, a + b, a, b);
  }

  lemma RightsSlices(p: Platform, fds: seq<int>, rest: seq<byte>, s: seq<byte>, from: int, len: int)
    requires p.Valid() && s == Rights(p, fds) + rest
    requires from == CmsgAlignOf(p, p.HeaderSize()) && len == CmsgLen(p, 4 * |fds|) && from >= p.HeaderSize()
    requires CmsgAlignOf(p, 4 * |fds|) >= 4 * |fds|
    ensures var w := p.lenWidth;
            && len <= |s| && s[..w] == LittleEndian(len, w) && s[w..w + 4] == LittleEndian(p.solSocket, 4)
            && s[w + 4..w + 8] == LittleEndian(p.scmRights, 4) && s[from..len] == Descriptors(fds)
  {
    hide CmsgAlignOf, LittleEndian, Descriptors, Zeros, Rights;
    var n := 4 * |fds|;
    var a, b, c := LittleEndian(len, p.lenWidth), LittleEndian(p.solSocket, 4), LittleEndian(p.scmRights, 4);
    var z, d, over := Zeros(from - p.HeaderSize()), Descriptors(fds), Zeros(CmsgAlignOf(p, n) - n);
    RightsAre(p, fds, rest);
    Layout(s, a, b, c, z, d, over + rest, p.lenWidth, from, len);
  }

  lemma HeaderReads(p: Platform, fds: seq<int>, rest: seq<byte>)
    requires Fits(p, fds)
    ensures var b, w := Rights(p, fds) + rest, p.lenWidth;
            && Number(b[..w]) == CmsgLen(p, 4 * |fds|)
            && Signed32(Number(b[w..w + 4])) == p.solSocket && Signed32(Number(b[w + 4..w + 8])) == p.scmRights
            && b[CmsgAlignOf(p, p.HeaderSize())..CmsgLen(p, 4 * |fds|)] == Descriptors(fds)
  {
    hide CmsgAlignOf;
    AlignIsUp(p, p.HeaderSize());
    AlignIsUp(p, 4 * |fds|);
    hide LittleEndian, Number, Descriptors, Rights, CmsgAlignOf;
    RightsSlices(p, fds, rest, Rights(p, fds) + rest, CmsgAlignOf(p, p.HeaderSize()), CmsgLen(p, 4 * |fds|));
    NumbersFit(p, CmsgLen(p, 4 * |fds|));
  }

  lemma NumbersFit(p: Platform, len: nat)
    requires p.Valid() && len < 0x8000_0000
    ensures Number(LittleEndian(len, p.lenWidth)) == len
    ensures Signed32(Number(LittleEndian(p.solSocket, 4))) == p.solSocket && Signed32(Number(LittleEndian(p.scmRights, 4))) == p.scmRights
  {
    hide LittleEndian, Number, Power256;
    Powers();
    NumberOfLittleEndian(len, p.lenWidth);
    NumberOfLittleEndian(p.solSocket, 4);
    NumberOfLittleEndian(p.scmRights, 4);
  }

  lemma RightsAre(p: Platform, fds: seq<int>, rest: seq<byte>)
    requires p.Valid()
    ensures var n := 4 * |fds|;
            Rights(p, fds) + rest ==
              LittleEndian(CmsgLen(p, n), p.lenWidth) + LittleEndian(p.solSocket, 4) + LittleEndian(p.scmRights, 4)
              + Zeros(CmsgAlignOf(p, p.HeaderSize()) - p.HeaderSize()) + Descriptors(fds) + (Zeros(CmsgAlignOf(p, n) - n) + rest)
  {
    hide LittleEndian, Descriptors, Zeros;
  }

  lemma Powers()
    ensures Power256(4) == 0x1_0000_0000 && Power256(8) == 0x1_0000_0000_0000_0000
  {
    assert Power256(4) == 0x1_0000_0000;
  }

  lemma OneMessage(p: Platform, fds: seq<int>, rest: seq<byte>)
    requires Fits(p, fds) && |Rights(p, fds) + rest| < p.IntLimit()
    ensures HeaderAndData(p, Rights(p, fds) + rest) == Ok(MessageOf(p, fds))
    ensures CmsgAlignOf(p, ToInt(p, MessageOf(p, fds).len)) == |Rights(p, fds)|
    ensures CmsgLen(p, 0) <= |Rights(p, fds)|
  {
    hide LittleEndian, Number, Descriptors, Rights;
    HeaderReads(p, fds, rest);
    AlignIsLeast(p, p.HeaderSize(), 0);
    AlignOfSum(p, CmsgAlignOf(p, p.HeaderSize()), 4 * |fds|);
    AlignIsLeast(p, 4 * |fds|, 0);
  }

  // Any number of buffers, one after the other, are parsed as their messages.
  lemma {:induction false} MessagesRoundTrip(p: Platform, fdss: seq<seq<int>>)
    requires p.Valid() && (forall fds | fds in fdss :: Fits(p, fds)) && |RightsOfAll(p, fdss)| < p.IntLimit()
    ensures ParseMessages(p, RightsOfAll(p, fdss)) == Ok(MessagesOf(p, fdss))
  {
    if fdss != [] {
      var fds, rest := fdss[0], RightsOfAll(p, fdss[1..]);
      MessagesRoundTrip(p, fdss[1..]);
      hide Rights, HeaderAndData, MessageOf;
      OneMessage(p, fds, rest);
      var b := Rights(p, fds) + rest;
      assert b[|Rights(p, fds)|..] == rest;
      AlignIsLeast(p, p.HeaderSize(), 0);
      if rest == [] {
        assert ParseMessages(p, rest) == Ok([]);
        assert [MessageOf(p, fds)] + [] == [MessageOf(p, fds)];
      }
    }
  }

  // And each message gives its descriptors back, if they fit in 32 bits.
  lemma {:induction false} DescriptorsRoundTrip(fds: seq<int>)
    requires forall fd | fd in fds :: -0x8000_0000 <= fd < 0x8000_0000
    ensures Decoded(Descriptors(fds)) == fds
  {
    if fds != [] {
      assert forall fd | fd in fds[1..] :: fd in fds;
      DescriptorsRoundTrip(fds[1..]);
      assert fds[0] in fds && fds == [fds[0]] + fds[1..];
      Bits32RoundTrip(fds[0]);
      var data := Descriptors(fds);
      assert data[..4] == LittleEndian(Bits32(fds[0]), 4);
      assert data[4..] == Descriptors(fds[1..]);
    }
  }

  lemma RightsRoundTrip(p: Platform, fds: seq<int>)
    requires p.Valid() && forall fd | fd in fds :: -0x8000_0000 <= fd < 0x8000_0000
    ensures ParseRights(p, MessageOf(p, fds)) == Ok(fds)
  {
    DescriptorsRoundTrip(fds);
  }

  // ---- The functions of the package ----

  method Put(b: array<byte>, at: nat, bs: seq<byte>)
    requires at + |bs| <= b.Length
    modifies b
    ensures b[..] == old(b[..at]) + bs + old(b[at + |bs|..])
  {
    for i := 0 to |bs|
      invariant b[..] == old(b[..at]) + bs[..i] + old(b[at + i..])
    {
      b[at + i] := bs[i];
    }
  }

  lemma {:induction false} DescriptorsOneMore(fds: seq<int>, i: nat)
    requires i < |fds|
    ensures Descriptors(fds[..i + 1]) == Descriptors(fds[..i]) + LittleEndian(Bits32(fds[i]), 4)
  {
    if i > 0 {
      DescriptorsOneMore(fds[1..], i - 1);
      assert fds[1..][..i] == fds[..i + 1][1..] && fds[1..][..i - 1] == fds[..i][1..];
    } else {
      assert fds[..1] == [fds[0]] && Descriptors([fds[0]][1..]) == [];
    }
  }

  method UnixRights(p: Platform, fds: seq<int>) returns (b: array<byte>)
    requires Fits(p, fds)
    ensures fresh(b) && b[..] == Rights(p, fds)
  {
    hide LittleEndian, Descriptors, Zeros, Header, Rights;
    var datalen := 4 * |fds|;
    AlignIsLeast(p, p.HeaderSize(), 0);
    AlignIsLeast(p, datalen, 0);
    b := new byte[CmsgSpace(p, datalen)](_ => 0);
    AllZeros(b[..]);
    ghost var from, space := CmsgAlignOf(p, p.HeaderSize()), CmsgSpace(p, datalen);
    PutHeader(p, b, CmsgLen(p, datalen));
    FrontAndBack(Header(p, CmsgLen(p, datalen), p.solSocket, p.scmRights), from, datalen, space);
    ghost var front, back := b[..from], b[from + datalen..];
    PutDescriptors(b, CmsgAlignOf(p, p.HeaderSize()), fds);
    RightsFromZeros(p, fds, front, back);
  }

  lemma AllZeros(bs: seq<byte>)
    requires forall i | 0 <= i < |bs| :: bs[i] == 0
    ensures bs == Zeros(|bs|)
  {
  }

  lemma RightsFromZeros(p: Platform, fds: seq<int>, front: seq<byte>, back: seq<byte>)
    requires p.Valid()
    requires var n, from := 4 * |fds|, CmsgAlignOf(p, p.HeaderSize());
             && from >= p.HeaderSize() && CmsgAlignOf(p, n) >= n
             && front == Header(p, CmsgLen(p, n), p.solSocket, p.scmRights) + Zeros(from - p.HeaderSize())
             && back == Zeros(CmsgAlignOf(p, n) - n)
    ensures Rights(p, fds) == front + Descriptors(fds) + back
  {
    hide Header, Descriptors, Zeros, CmsgAlignOf;
  }

  lemma FrontAndBack(h: seq<byte>, from: nat, n: nat, space: nat)
    requires |h| <= from && from + n <= space
    ensures var b := h + Zeros(space - |h|);
            b[..from] == h + Zeros(from - |h|) && b[from + n..] == Zeros(space - from - n)
  {
    hide Zeros;
    var zeros := Zeros(space - |h|);
    ZerosSplit(space - |h|, from - |h|);
    ZerosSplit(space - |h|, from + n - |h|);
    assert (h + zeros)[..from] == h + zeros[..from - |h|];
    assert (h + zeros)[from + n..] == zeros[from + n - |h|..];
  }

  lemma ZerosSplit(n: nat, k: nat)
    requires k <= n
    ensures Zeros(n)[..k] == Zeros(k) && Zeros(n)[k..] == Zeros(n - k)
  {
  }

  // The header's fields, into a buffer of zeros.
  method PutHeader(p: Platform, b: array<byte>, len: nat)
    requires p.Valid() && p.HeaderSize() <= b.Length && b[..] == Zeros(b.Length)
    modifies b
    ensures b[..] == Header(p, len, p.solSocket, p.scmRights) + Zeros(b.Length - p.HeaderSize())
  {
    hide LittleEndian, Zeros, Header;
    var w := p.lenWidth;
    ghost var n, l, t := b.Length, LittleEndian(p.solSocket, 4), LittleEndian(p.scmRights, 4);
    ghost var left := n - w - 8;
    ZerosSplit(n, w);
    ZerosSplit(n, w + 4);
    Put(b, w, LittleEndian(p.solSocket, 4));
    Around(Zeros(w) + l, Zeros(n - w - 4), 4);
    ZerosSplit(n - w - 4, 4);
    Put(b, w + 4, LittleEndian(p.scmRights, 4));
    Grouped(Zeros(w), l, t, Zeros(left));
    Around(Zeros(w), l + t + Zeros(left), 0);
    Put(b, 0, LittleEndian(len, w));
    HeaderIs(p, len, Zeros(left));
  }

  lemma Grouped(x: seq<byte>, y: seq<byte>, z: seq<byte>, rest: seq<byte>)
    ensures x + y + z + rest == x + (y + z + rest)
  {
  }

  lemma Around(x: seq<byte>, y: seq<byte>, k: nat)
    requires k <= |y|
    ensures (x + y)[..|x|] == x && (x + y)[|x| + k..] == y[k..] && y[0..] == y
  {
  }

  lemma HeaderIs(p: Platform, len: nat, rest: seq<byte>)
    requires p.Valid()
    ensures [] + LittleEndian(len, p.lenWidth) + (LittleEndian(p.solSocket, 4) + LittleEndian(p.scmRights, 4) + rest)
         == Header(p, len, p.solSocket, p.scmRights) + rest
  {
    hide LittleEndian;
  }

  method PutDescriptors(b: array<byte>, from: nat, fds: seq<int>)
    requires from + 4 * |fds| <= b.Length
    modifies b
    ensures b[..] == old(b[..from]) + Descriptors(fds) + old(b[from + 4 * |fds|..])
  {
    hide LittleEndian, Descriptors;
    ghost var o := b[..];
    assert o == o[..from] + Descriptors(fds[..0]) + o[from..] by {
      NoDescriptors(fds);
    }
    for i := 0 to |fds|
      invariant |Descriptors(fds[..i])| == 4 * i
      invariant b[..] == o[..from] + Descriptors(fds[..i]) + o[from + 4 * i..]
    {
      DescriptorsOneMore(fds, i);
      ghost var front, back := o[..from] + Descriptors(fds[..i]), o[from + 4 * i..];
      Around(front, back, 4);
      assert back[4..] == o[from + 4 * (i + 1)..];
      Put(b, from + 4 * i, LittleEndian(Bits32(fds[i]), 4));
      assert front + LittleEndian(Bits32(fds[i]), 4) == o[..from] + Descriptors(fds[..i + 1]);
    }
    assert fds[..|fds|] == fds;
  }

  lemma NoDescriptors(fds: seq<int>)
    ensures Descriptors(fds[..0]) == []
  {
  }

  method ParseSocketControlMessage(p: Platform, b: seq<byte>) returns (r: Result<seq<Message>>)
    requires p.Valid() && |b| < p.IntLimit()
    ensures r == ParseMessages(p, b)
  {
    hide HeaderAndData;
    var msgs: seq<Message> := [];
    var i := 0;
    AlignIsLeast(p, p.HeaderSize(), 0);
    NoMessages(p, b);
    while i + CmsgLen(p, 0) <= |b|
      invariant 0 <= i
      invariant i <= |b| ==> ParseMessages(p, b) == Follows(msgs, ParseMessages(p, b[i..]))
      invariant i > |b| ==> ParseMessages(p, b) == Ok(msgs)
      decreases |b| - i
    {
      match HeaderAndData(p, b[i..]) {
        case Invalid => return Invalid;
        case Panic => return Panic;
        case Ok(m) =>
          NextMessage(p, b, i, m, msgs);
          msgs := msgs + [m];
          i := i + CmsgAlignOf(p, ToInt(p, m.len));
      }
    }
    if i <= |b| {
      assert msgs + [] == msgs;
    }
    return Ok(msgs);
  }

  lemma NoMessages(p: Platform, b: seq<byte>)
    requires p.Valid() && |b| < p.IntLimit()
    ensures ParseMessages(p, b) == Follows([], ParseMessages(p, b[0..]))
  {
    assert b[0..] == b;
    match ParseMessages(p, b) {
      case Ok(more) => assert [] + more == more;
      case _ =>
    }
  }

  function Follows(msgs: seq<Message>, r: Result<seq<Message>>): Result<seq<Message>> {
    match r
    case Ok(more) => Ok(msgs + more)
    case other => other
  }

  lemma NextMessage(p: Platform, b: seq<byte>, i: nat, m: Message, msgs: seq<Message>)
    requires p.Valid() && |b| < p.IntLimit() && i + CmsgLen(p, 0) <= |b| && HeaderAndData(p, b[i..]) == Ok(m)
    ensures var k := CmsgAlignOf(p, ToInt(p, m.len));
            && k > 0
            && (i + k <= |b| ==> Follows(msgs, ParseMessages(p, b[i..])) == Follows(msgs + [m], ParseMessages(p, b[i + k..])))
            && (i + k > |b| ==> Follows(msgs, ParseMessages(p, b[i..])) == Ok(msgs + [m]))
  {
    var k := CmsgAlignOf(p, ToInt(p, m.len));
    AlignIsLeast(p, ToInt(p, m.len), 0);
    AlignIsLeast(p, p.HeaderSize(), 0);
    if i + k <= |b| {
      assert b[i..][k..] == b[i + k..];
      if i + k == |b| {
        assert b[i + k..] == [] && [m] + [] == [m];
      }
      match ParseMessages(p, b[i + k..]) {
        case Ok(more) => assert msgs + ([m] + more) == msgs + [m] + more;
        case _ =>
      }
    }
  }

  lemma {:induction false} DecodedAt(data: seq<byte>, i: nat)
    requires |data| % 4 == 0 && i < |data| / 4
    ensures |Decoded(data)| == |data| / 4 && Decoded(data)[i] == Signed32(Number(data[4 * i..4 * i + 4]))
  {
    hide Number;
    if i > 0 {
      DecodedAt(data[4..], i - 1);
      assert data[4..][4 * (i - 1)..4 * (i - 1) + 4] == data[4 * i..4 * i + 4];
    } else if |data| > 4 {
      DecodedAt(data[4..], 0);
    }
  }

  method ParseUnixRights(p: Platform, m: Message) returns (r: Result<seq<int>>)
    ensures r == ParseRights(p, m)
    ensures r.Invalid? <==> m.level != p.solSocket || m.typ != p.scmRights
    ensures r.Panic? <==> m.level == p.solSocket && m.typ == p.scmRights && |m.data| % 4 != 0
    ensures r.Ok? ==>
              && |r.value| == |m.data| / 4
              && forall i | 0 <= i < |r.value| :: r.value[i] == Signed32(Number(m.data[4 * i..4 * i + 4]))
  {
    hide Number, Signed32, Decoded;
    if m.level != p.solSocket || m.typ != p.scmRights {
      return Invalid;
    }
    var fds := new int[|m.data| / 4];
    var i, j := 0, 0;
    while i < |m.data|
      invariant i == 4 * j && j <= fds.Length && i <= |m.data|
      invariant forall k | 0 <= k < j :: fds[k] == Signed32(Number(m.data[4 * k..4 * k + 4]))
    {
      if j == fds.Length {
        return Panic;
      }
      fds[j] := Signed32(Number(m.data[i..i + 4]));
      i := i + 4;
      j := j + 1;
    }
    DecodedIs(m.data, fds[..]);
    return Ok(fds[..]);
  }

  lemma DecodedIs(data: seq<byte>, fds: seq<int>)
    requires |data| % 4 == 0 && |fds| == |data| / 4
    requires forall k | 0 <= k < |fds| :: fds[k] == Signed32(Number(data[4 * k..4 * k + 4]))
    ensures Decoded(data) == fds
  {
    hide Number, Signed32;
    if data == [] {
      return;
    }
    DecodedAt(data, 0);
    forall k | 0 <= k < |fds| ensures |Decoded(data)| == |fds| && Decoded(data)[k] == fds[k] {
      DecodedAt(data, k);
    }
  }
}
