/**
 Finding the server name in the first TLS record of a connection. The layout is that of the
 ClientHello in section 4.1.2 of RFC 8446 with the server_name extension of section 3 of
 RFC 6066. Whether bytes are valid UTF-8 is a parameter.
 */
module ClientHello {
  import opened Common

  function U16(hi: Byte, lo: Byte): (n: nat)
    ensures n < 65536
  {
    hi * 256 + lo
  }

  function Min(a: nat, b: nat): nat { if a < b then a else b }

  // ---------- the parser as functions ----------

  /** What a scan of a name list comes to: an answer, or nothing yet. */
  datatype Scan = Answer(host: Option<Bytes>) | NothingYet

  function ScanNames(utf8: Bytes -> bool, data: Bytes): Scan
    decreases |data|
  {
    if |data| < 3 then NothingYet
    else
      var len := U16(data[1], data[2]);
      if 3 + len > |data| then Answer(None)
      else
        var name := data[3..3 + len];
        if data[0] == 0 && !utf8(name) then Answer(None)
        else if data[0] == 0 && name != [] then Answer(Some(name))
        else ScanNames(utf8, data[3 + len..])
  }

  function ScanExtensions(utf8: Bytes -> bool, exts: Bytes): Option<Bytes>
    decreases |exts|
  {
    if |exts| < 4 then None
    else
      var end := Min(4 + U16(exts[2], exts[3]), |exts|);
      var data := exts[4..end];
      if U16(exts[0], exts[1]) == 0 then
        if |data| < 2 then None
        else
          match ScanNames(utf8, data[2..])
          case Answer(host) => host
          case NothingYet => ScanExtensions(utf8, exts[end..])
      else ScanExtensions(utf8, exts[end..])
  }

  /** The offset of the extensions' length field, past the version, random, session id, cipher suites and
      compression methods. */
  function ExtensionsAt(body: Bytes): (r: Option<nat>)
    ensures r.Some? ==> r.value + 2 <= |body|
  {
    if |body| < 35 then None
    else
      var ciphers: nat := 35 + body[34] as int;
      if ciphers + 2 > |body| then None
      else
        var compression: nat := ciphers + 2 + U16(body[ciphers], body[ciphers + 1]);
        if compression + 1 > |body| then None
        else
          var exts: nat := compression + 1 + body[compression] as int;
          if exts + 2 > |body| then None else Some(exts)
  }

  function ParseBody(utf8: Bytes -> bool, body: Bytes): Option<Bytes> {
    match ExtensionsAt(body)
    case None => None
    case Some(at) => ScanExtensions(utf8, body[at + 2..Min(at + 2 + U16(body[at], body[at + 1]), |body|)])
  }

  function RecordLength(buf: Bytes): nat
    requires |buf| >= 5
  {
    U16(buf[3], buf[4])
  }

  function Parse(utf8: Bytes -> bool, buf: Bytes): Option<Bytes> {
    if |buf| < 5 || buf[0] != 0x16 || |buf| < 5 + RecordLength(buf) then None
    else
      var hs := buf[5..5 + RecordLength(buf)];
      if |hs| < 4 || hs[0] != 1 then None else ParseBody(utf8, hs[4..])
  }

  // ---------- the parser with offsets ----------

  lemma SliceOfSlice(s: Bytes, a: nat, b: nat, i: nat, j: nat)
    requires a <= b <= |s| && i <= j <= b - a
    ensures s[a..b][i..j] == s[a + i..a + j]
  {
    var x, y := s[a..b][i..j], s[a + i..a + j];
    forall k | 0 <= k < |x| ensures x[k] == y[k] {
      assert x[k] == s[a..b][i + k];
    }
  }

  lemma SliceToEnd(s: Bytes, a: nat, b: nat, i: nat)
    requires a <= b <= |s| && i <= b - a
    ensures s[a..b][i..] == s[a + i..b]
  {
    SliceOfSlice(s, a, b, i, b - a);
    assert s[a..b][i..] == s[a..b][i..b - a];
  }

  /** One step of the name scan, in offsets. */
  lemma NameAt(utf8: Bytes -> bool, body: Bytes, p: nat, end: nat, len: nat)
    requires p + 3 <= end <= |body| && len == U16(body[p + 1], body[p + 2])
    ensures ScanNames(utf8, body[p..end]) ==
              if p + 3 + len > end then Answer(None)
              else if body[p] == 0 && !utf8(body[p + 3..p + 3 + len]) then Answer(None)
              else if body[p] == 0 && len != 0 then Answer(Some(body[p + 3..p + 3 + len]))
              else ScanNames(utf8, body[p + 3 + len..end])
  {
    var data := body[p..end];
    assert data[0] == body[p] && data[1] == body[p + 1] && data[2] == body[p + 2];
    if p + 3 + len <= end {
      SliceOfSlice(body, p, end, 3, 3 + len);
      SliceToEnd(body, p, end, 3 + len);
    }
  }

  /** Read the name at `p`: an answer, or where the next one starts. */
  method ReadName(utf8: Bytes -> bool, body: Bytes, p: nat, end: nat) returns (r: Scan, next: nat)
    requires p + 3 <= end <= |body|
    ensures r.Answer? ==> ScanNames(utf8, body[p..end]) == r
    ensures r.NothingYet? ==> p < next <= end && ScanNames(utf8, body[p..end]) == ScanNames(utf8, body[next..end])
  {
    var kind, len, data := body[p], U16(body[p + 1], body[p + 2]), p + 3;
    NameAt(utf8, body, p, end, len);
    next := data + len;
    if next > end { return Answer(None), next; }
    if kind == 0 {
      if !utf8(body[data..next]) { return Answer(None), next; }
      if len != 0 { return Answer(Some(body[data..next])), next; }
    }
    r := NothingYet;
  }

  method NamesAt(utf8: Bytes -> bool, body: Bytes, from: nat, end: nat) returns (r: Scan)
    requires from <= end <= |body|
    ensures r == ScanNames(utf8, body[from..end])
  {
    var p := from;
    while p + 3 <= end
      invariant from <= p <= end
      invariant ScanNames(utf8, body[from..end]) == ScanNames(utf8, body[p..end])
    {
      r, p := ReadName(utf8, body, p, end);
      if r.Answer? { return; }
    }
    r := NothingYet;
  }

  /** One step of the extension scan, in offsets. */
  lemma ExtensionAt(utf8: Bytes -> bool, body: Bytes, off: nat, end: nat, dataEnd: nat)
    requires off + 4 <= end <= |body| && dataEnd == Min(off + 4 + U16(body[off + 2], body[off + 3]), end)
    ensures ScanExtensions(utf8, body[off..end]) ==
              if U16(body[off], body[off + 1]) != 0 then ScanExtensions(utf8, body[dataEnd..end])
              else if off + 6 > dataEnd then None
              else match ScanNames(utf8, body[off + 6..dataEnd])
                case Answer(host) => host
                case NothingYet => ScanExtensions(utf8, body[dataEnd..end])
  {
    var exts := body[off..end];
    assert exts[0] == body[off] && exts[1] == body[off + 1] && exts[2] == body[off + 2] && exts[3] == body[off + 3];
    SliceOfSlice(body, off, end, 4, dataEnd - off);
    SliceToEnd(body, off, end, dataEnd - off);
    if off + 6 <= dataEnd { SliceToEnd(body, off + 4, dataEnd, 2); }
  }

  /** Read the extension at `off`: an answer, or where the next one starts. */
  method ReadExtension(utf8: Bytes -> bool, body: Bytes, off: nat, end: nat) returns (r: Scan, next: nat)
    requires off + 4 <= end <= |body|
    ensures r.Answer? ==> ScanExtensions(utf8, body[off..end]) == r.host
    ensures r.NothingYet? ==>
              off < next <= end && ScanExtensions(utf8, body[off..end]) == ScanExtensions(utf8, body[next..end])
  {
    var kind, len, data := U16(body[off], body[off + 1]), U16(body[off + 2], body[off + 3]), off + 4;
    next := Min(data + len, end);
    ExtensionAt(utf8, body, off, end, next);
    r := NothingYet;
    if kind == 0 {
      if data + 2 > next { return Answer(None), next; }
      r := NamesAt(utf8, body, data + 2, next);
    }
  }

  method ExtensionsFrom(utf8: Bytes -> bool, body: Bytes, from: nat, end: nat) returns (r: Option<Bytes>)
    requires from <= end <= |body|
    ensures r == ScanExtensions(utf8, body[from..end])
  {
    var off := from;
    while off + 4 <= end
      invariant from <= off <= end
      invariant ScanExtensions(utf8, body[from..end]) == ScanExtensions(utf8, body[off..end])
    {
      var scan, next := ReadExtension(utf8, body, off, end);
      if scan.Answer? { return scan.host; }
      off := next;
    }
    r := None;
  }

  method FindExtensions(body: Bytes) returns (at: Option<nat>)
    ensures at == ExtensionsAt(body)
  {
    if |body| < 34 { return None; }
    var off: nat := 34;
    if off + 1 > |body| { return None; }
    off := off + 1 + body[off] as int;
    if off + 2 > |body| { return None; }
    off := off + 2 + U16(body[off], body[off + 1]);
    if off + 1 > |body| { return None; }
    off := off + 1 + body[off] as int;
    if off + 2 > |body| { return None; }
    at := Some(off);
  }

  method BodySni(utf8: Bytes -> bool, body: Bytes) returns (r: Option<Bytes>)
    ensures r == ParseBody(utf8, body)
  {
    var at := FindExtensions(body);
    if at.None? { return None; }
    var off := at.value + 2;
    var extTotal := U16(body[at.value], body[at.value + 1]);
    r := ExtensionsFrom(utf8, body, off, Min(off + extTotal, |body|));
  }

  /** Every offset the parser reads is inside the buffer, on every byte string. */
  method ExtractSni(utf8: Bytes -> bool, buf: Bytes) returns (r: Option<Bytes>)
    ensures r == Parse(utf8, buf)
  {
    if |buf| < 5 || buf[0] != 0x16 { return None; }
    var recordLen := U16(buf[3], buf[4]);
    if |buf| < 5 + recordLen { return None; }
    var hs := buf[5..5 + recordLen];
    if |hs| < 4 || hs[0] != 0x01 { return None; }
    r := BodySni(utf8, hs[4..]);
  }

  // ---------- what a ClientHello says ----------

  datatype Name = Name(kind: Byte, bytes: Bytes)

  datatype Extension = ServerName(names: seq<Name>) | Other(kind: nat, data: Bytes)

  datatype Hello = Hello(recordVersion: Bytes, version: Bytes, random: Bytes, session: Bytes, ciphers: Bytes,
                         compression: Bytes, extensions: seq<Extension>)

  /** The first non-empty host name of a list, if it is text. */
  function FirstHost(utf8: Bytes -> bool, names: seq<Name>): Scan {
    if names == [] then NothingYet
    else if names[0].kind == 0 && names[0].bytes != [] then
      Answer(if utf8(names[0].bytes) then Some(names[0].bytes) else None)
    else FirstHost(utf8, names[1..])
  }

  /** The first non-empty host name of a message, over its server_name extensions in order. */
  function HostOf(utf8: Bytes -> bool, exts: seq<Extension>): Option<Bytes> {
    if exts == [] then None
    else if exts[0].Other? then HostOf(utf8, exts[1..])
    else
      match FirstHost(utf8, exts[0].names)
      case Answer(host) => host
      case NothingYet => HostOf(utf8, exts[1..])
  }

  // ---------- how it is encoded ----------

  function Two(n: nat): (r: Bytes)
    requires n < 65536
    ensures |r| == 2 && U16(r[0], r[1]) == n
  {
    [n / 256, n % 256]
  }

  function Three(n: nat): (r: Bytes)
    requires n < 65536
    ensures |r| == 3
  {
    [0] + Two(n)
  }

  function NamesLength(names: seq<Name>): nat {
    if names == [] then 0 else 3 + |names[0].bytes| + NamesLength(names[1..])
  }

  function ExtensionLength(e: Extension): nat {
    match e
    case ServerName(names) => 2 + NamesLength(names)
    case Other(_, data) => |data|
  }

  function ExtensionsLength(exts: seq<Extension>): nat {
    if exts == [] then 0 else 4 + ExtensionLength(exts[0]) + ExtensionsLength(exts[1..])
  }

  function BodyLength(h: Hello): nat {
    34 + 1 + |h.session| + 2 + |h.ciphers| + 1 + |h.compression| + 2 + ExtensionsLength(h.extensions)
  }

  /** The vectors fit their length fields, and the message fits one record. */
  ghost predicate WellFormed(h: Hello) {
    && |h.recordVersion| == 2 && |h.version| == 2 && |h.random| == 32
    && |h.session| < 256 && |h.compression| < 256 && 4 + BodyLength(h) < 65536
    && forall e :: e in h.extensions && e.Other? ==> 0 < e.kind < 65536
  }

  function EncodeName(n: Name): (r: Bytes)
    requires |n.bytes| < 65536
    ensures |r| == 3 + |n.bytes|
  {
    [n.kind] + Two(|n.bytes|) + n.bytes
  }

  function EncodeNames(names: seq<Name>): (r: Bytes)
    requires NamesLength(names) < 65536
    ensures |r| == NamesLength(names)
  {
    if names == [] then [] else EncodeName(names[0]) + EncodeNames(names[1..])
  }

  function ExtensionKind(e: Extension): nat { if e.Other? then e.kind else 0 }

  function EncodeData(e: Extension): (r: Bytes)
    requires ExtensionLength(e) < 65536
    ensures |r| == ExtensionLength(e)
  {
    match e
    case ServerName(names) => Two(NamesLength(names)) + EncodeNames(names)
    case Other(_, data) => data
  }

  function EncodeExtension(e: Extension): (r: Bytes)
    requires ExtensionLength(e) < 65536 && ExtensionKind(e) < 65536
    ensures |r| == 4 + ExtensionLength(e)
  {
    Two(ExtensionKind(e)) + Two(ExtensionLength(e)) + EncodeData(e)
  }

  ghost predicate ExtensionsFit(exts: seq<Extension>) {
    ExtensionsLength(exts) < 65536 && forall e :: e in exts && e.Other? ==> 0 < e.kind < 65536
  }

  function EncodeExtensions(exts: seq<Extension>): (r: Bytes)
    requires ExtensionsFit(exts)
    ensures |r| == ExtensionsLength(exts)
  {
    if exts == [] then []
    else
      assert exts[0] in exts;
      EncodeExtension(exts[0]) + EncodeExtensions(exts[1..])
  }

  function EncodeBody(h: Hello): (r: Bytes)
    requires WellFormed(h)
    ensures |r| == BodyLength(h)
  {
    h.version + h.random + [|h.session|] + h.session + Two(|h.ciphers|) + h.ciphers + [|h.compression|] + h.compression
    + Two(ExtensionsLength(h.extensions)) + EncodeExtensions(h.extensions)
  }

  function Encode(h: Hello): (r: Bytes)
    requires WellFormed(h)
    ensures |r| == 9 + BodyLength(h)
  {
    [0x16] + h.recordVersion + Two(4 + BodyLength(h)) + ([1] + Three(BodyLength(h)) + EncodeBody(h))
  }

  // ---------- parsing an encoding ----------

  lemma {:induction false} NamesRoundTrip(utf8: Bytes -> bool, names: seq<Name>)
    requires NamesLength(names) < 65536 && utf8([])
    ensures ScanNames(utf8, EncodeNames(names)) == FirstHost(utf8, names)
  {
    if names != [] {
      var data, n := EncodeNames(names), names[0];
      var len := |n.bytes|;
      NamesRoundTrip(utf8, names[1..]);
      NameAtFront(n, EncodeNames(names[1..]));
      assert data[3..3 + len] == n.bytes && data[3 + len..] == EncodeNames(names[1..]);
    }
  }

  lemma NameAtFront(n: Name, rest: Bytes)
    requires |n.bytes| < 65536
    ensures var data := EncodeName(n) + rest;
            && data[0] == n.kind && U16(data[1], data[2]) == |n.bytes|
            && data[3..3 + |n.bytes|] == n.bytes && data[3 + |n.bytes|..] == rest
  {
    var two := Two(|n.bytes|);
    var data := EncodeName(n) + rest;
    assert data[1] == two[0] && data[2] == two[1];
  }

  lemma ExtensionAtFront(e: Extension, rest: Bytes)
    requires ExtensionLength(e) < 65536 && ExtensionKind(e) < 65536
    ensures var exts, end := EncodeExtension(e) + rest, 4 + ExtensionLength(e);
            && U16(exts[0], exts[1]) == ExtensionKind(e) && U16(exts[2], exts[3]) == ExtensionLength(e)
            && exts[4..end] == EncodeData(e) && exts[end..] == rest
  {
    var kind, len := Two(ExtensionKind(e)), Two(ExtensionLength(e));
    var exts := EncodeExtension(e) + rest;
    assert exts[0] == kind[0] && exts[1] == kind[1] && exts[2] == len[0] && exts[3] == len[1];
  }

  lemma {:induction false} ExtensionsRoundTrip(utf8: Bytes -> bool, exts: seq<Extension>)
    requires ExtensionsFit(exts) && utf8([])
    ensures ScanExtensions(utf8, EncodeExtensions(exts)) == HostOf(utf8, exts)
  {
    if exts != [] {
      var e, rest := exts[0], exts[1..];
      assert e in exts;
      ExtensionsRoundTrip(utf8, rest);
      ExtensionAtFront(e, EncodeExtensions(rest));
      if e.ServerName? {
        NamesRoundTrip(utf8, e.names);
        assert EncodeData(e)[2..] == EncodeNames(e.names);
      }
    }
  }

  lemma ByteAfter(a: Bytes, n: Byte, s: Bytes)
    requires a + [n] <= s
    ensures |s| > |a| && s[|a|] == n
  {
    assert (a + [n])[|a|] == n;
  }

  lemma TwoAfter(a: Bytes, n: nat, s: Bytes)
    requires n < 65536 && a + Two(n) <= s
    ensures |s| >= |a| + 2 && U16(s[|a|], s[|a| + 1]) == n
  {
    var t := a + Two(n);
    assert t[|a|] == Two(n)[0] && t[|a| + 1] == Two(n)[1];
  }

  lemma Longer(a: Bytes, b: Bytes, c: Bytes, s: Bytes)
    requires a + b + c <= s
    ensures a <= s
  {
    assert s[..|a|] == (a + b + c)[..|a|] == a;
  }

  /** The skip over three variable parts, given what their length fields hold. */
  lemma SkipTo(body: Bytes, session: nat, ciphers: nat, compression: nat, at: nat)
    requires at == 35 + session + 2 + ciphers + 1 + compression && at + 2 <= |body| && body[34] == session
    requires U16(body[35 + session], body[36 + session]) == ciphers && body[37 + session + ciphers] == compression
    ensures ExtensionsAt(body) == Some(at)
  {
  }

  lemma PartsLayout(front: Bytes, session: Bytes, ciphers: Bytes, compression: Bytes, exts: Bytes, body: Bytes)
    requires |front| == 34 && |session| < 256 && |ciphers| < 65536 && |compression| < 256 && |exts| < 65536
    requires body == front + [|session|] + session + Two(|ciphers|) + ciphers + [|compression|] + compression
                     + Two(|exts|) + exts
    ensures var at := 35 + |session| + 2 + |ciphers| + 1 + |compression|;
            ExtensionsAt(body) == Some(at) && U16(body[at], body[at + 1]) == |exts| && body[at + 2..] == exts
  {
    var a := front + [|session|];
    var b := a + session;
    var c := b + Two(|ciphers|);
    var d := c + ciphers;
    var e := d + [|compression|];
    var f := e + compression;
    var g := f + Two(|exts|);
    Longer(g, exts, [], body);
    TwoAfter(f, |exts|, body);
    Longer(e, compression, Two(|exts|), body);
    ByteAfter(d, |compression|, body);
    Longer(c, ciphers, [|compression|], body);
    TwoAfter(b, |ciphers|, body);
    Longer(a, session, Two(|ciphers|), body);
    ByteAfter(front, |session|, body);
    SkipTo(body, |session|, |ciphers|, |compression|, |f|);
  }

  /** Where each variable part of an encoded body lies. */
  lemma BodyLayout(h: Hello, body: Bytes, at: nat, exts: Bytes)
    requires WellFormed(h) && body == EncodeBody(h) && exts == EncodeExtensions(h.extensions)
    requires at == 35 + |h.session| + 2 + |h.ciphers| + 1 + |h.compression|
    ensures ExtensionsAt(body) == Some(at) && U16(body[at], body[at + 1]) == |exts| && body[at + 2..] == exts
  {
    PartsLayout(h.version + h.random, h.session, h.ciphers, h.compression, exts, body);
  }

  /** Parsing the encoding of any well-formed message, whatever its other fields and whatever follows the
      record, gives its first non-empty host name. */
  lemma ParseEncoded(utf8: Bytes -> bool, h: Hello, tail: Bytes)
    requires WellFormed(h) && utf8([])
    ensures Parse(utf8, Encode(h) + tail) == HostOf(utf8, h.extensions)
  {
    RecordAtFront(h, tail);
    BodyRoundTrip(utf8, h);
  }

  lemma BodyRoundTrip(utf8: Bytes -> bool, h: Hello)
    requires WellFormed(h) && utf8([])
    ensures ParseBody(utf8, EncodeBody(h)) == HostOf(utf8, h.extensions)
  {
    var body, exts := EncodeBody(h), EncodeExtensions(h.extensions);
    var at := 35 + |h.session| + 2 + |h.ciphers| + 1 + |h.compression|;
    BodyLayout(h, body, at, exts);
    ExtensionsRoundTrip(utf8, h.extensions);
    ParseBodyAt(utf8, body, at, exts);
  }

  lemma ParseBodyAt(utf8: Bytes -> bool, body: Bytes, at: nat, exts: Bytes)
    requires ExtensionsAt(body) == Some(at) && U16(body[at], body[at + 1]) == |exts| && body[at + 2..] == exts
    ensures ParseBody(utf8, body) == ScanExtensions(utf8, exts)
  {
    assert body[at + 2..|body|] == body[at + 2..];
  }

  lemma RecordAtFront(h: Hello, tail: Bytes)
    requires WellFormed(h)
    ensures var buf, len := Encode(h) + tail, 4 + BodyLength(h);
            && buf[0] == 0x16 && RecordLength(buf) == len && buf[5] == 1 && buf[5..5 + len][4..] == EncodeBody(h)
  {
    var len := 4 + BodyLength(h);
    var buf, two := Encode(h) + tail, Two(len);
    assert buf[3] == two[0] && buf[4] == two[1];
  }

  /** On every byte string: a cut-off record gives nothing, and bytes after a whole one change nothing. */
  lemma OnlyTheRecordCounts(utf8: Bytes -> bool, buf: Bytes, tail: Bytes)
    ensures |buf| < 5 || |buf| < 5 + RecordLength(buf) ==> Parse(utf8, buf) == None
    ensures |buf| >= 5 && |buf| >= 5 + RecordLength(buf) ==> Parse(utf8, buf + tail) == Parse(utf8, buf)
  {
    if |buf| >= 5 && |buf| >= 5 + RecordLength(buf) {
      var end := 5 + RecordLength(buf);
      assert (buf + tail)[5..end] == buf[5..end];
    }
  }

  /** Cutting an encoded message short anywhere leaves nothing to find. */
  lemma TruncatedIsNothing(utf8: Bytes -> bool, h: Hello, n: nat)
    requires WellFormed(h) && n < |Encode(h)|
    ensures Parse(utf8, Encode(h)[..n]) == None
  {
    RecordAtFront(h, []);
    assert Encode(h) + [] == Encode(h);
    var cut := Encode(h)[..n];
    if n >= 5 { assert RecordLength(cut) == RecordLength(Encode(h)); }
  }

  // ---------- what is found is there ----------

  /** At `i` lies `host`, after a zero byte and its own length in two bytes, the higher first. */
  ghost predicate NameIn(s: Bytes, i: nat, host: Bytes) {
    && 3 <= i && i + |host| <= |s| && s[i..i + |host|] == host
    && s[i - 3] == 0 && s[i - 2] as int * 256 + s[i - 1] as int == |host|
  }

  lemma NameInSlice(s: Bytes, a: nat, b: nat, i: nat, host: Bytes)
    requires a <= b <= |s| && NameIn(s[a..b], i, host)
    ensures NameIn(s, a + i, host)
  {
    SliceOfSlice(s, a, b, i, i + |host|);
    var t := s[a..b];
    assert t[i - 3] == s[a + i - 3] && t[i - 2] == s[a + i - 2] && t[i - 1] == s[a + i - 1];
  }

  lemma {:induction false} NamesSound(utf8: Bytes -> bool, data: Bytes, host: Bytes) returns (i: nat)
    requires ScanNames(utf8, data) == Answer(Some(host))
    ensures NameIn(data, i, host) && host != [] && utf8(host)
    decreases |data|
  {
    var len := U16(data[1], data[2]);
    if data[0] == 0 && len != 0 {
      i := 3;
    } else {
      i := NamesSound(utf8, data[3 + len..], host);
      assert data[3 + len..] == data[3 + len..|data|];
      NameInSlice(data, 3 + len, |data|, i, host);
      i := 3 + len + i;
    }
  }

  /** At `e` begins an extension of type zero, and its data reaches from two bytes past its header to `to`. */
  ghost predicate ServerNameAt(s: Bytes, e: nat, from: nat, to: nat) {
    && e + 6 <= from <= to <= |s| && s[e] == 0 && s[e + 1] == 0
    && to <= e + 4 + s[e + 2] as int * 256 + s[e + 3] as int
  }

  lemma ServerNameInSlice(s: Bytes, a: nat, b: nat, e: nat, from: nat, to: nat)
    requires a <= b <= |s| && ServerNameAt(s[a..b], e, from, to)
    ensures ServerNameAt(s, a + e, a + from, a + to)
  {
    var t := s[a..b];
    assert t[e] == s[a + e] && t[e + 1] == s[a + e + 1] && t[e + 2] == s[a + e + 2] && t[e + 3] == s[a + e + 3];
  }

  /** The name lies in the data of a server_name extension. */
  ghost predicate FoundAt(utf8: Bytes -> bool, s: Bytes, e: nat, i: nat, host: Bytes) {
    NameIn(s, i, host) && host != [] && utf8(host) && 3 <= i && ServerNameAt(s, e, i - 3, i + |host|)
  }

  lemma FoundInSlice(utf8: Bytes -> bool, s: Bytes, a: nat, b: nat, e: nat, i: nat, host: Bytes)
    requires a <= b <= |s| && FoundAt(utf8, s[a..b], e, i, host)
    ensures FoundAt(utf8, s, a + e, a + i, host)
  {
    NameInSlice(s, a, b, i, host);
    ServerNameInSlice(s, a, b, e, i - 3, i + |host|);
  }

  lemma FoundInRest(utf8: Bytes -> bool, s: Bytes, a: nat, e: nat, i: nat, host: Bytes)
    requires a <= |s| && FoundAt(utf8, s[a..], e, i, host)
    ensures FoundAt(utf8, s, a + e, a + i, host)
  {
    assert s[a..] == s[a..|s|];
    FoundInSlice(utf8, s, a, |s|, e, i, host);
  }

  lemma FirstSound(utf8: Bytes -> bool, exts: Bytes, end: nat, host: Bytes) returns (i: nat)
    requires 6 <= end <= |exts| && exts[0] == 0 && exts[1] == 0 && end <= 4 + U16(exts[2], exts[3])
    requires ScanNames(utf8, exts[6..end]) == Answer(Some(host))
    ensures FoundAt(utf8, exts, 0, i, host)
  {
    i := NamesSound(utf8, exts[6..end], host);
    NameInSlice(exts, 6, end, i, host);
    i := 6 + i;
  }

  lemma {:induction false} ExtensionsSound(utf8: Bytes -> bool, exts: Bytes, host: Bytes) returns (e: nat, i: nat)
    requires ScanExtensions(utf8, exts) == Some(host)
    ensures FoundAt(utf8, exts, e, i, host)
    decreases |exts|
  {
    var end := Min(4 + U16(exts[2], exts[3]), |exts|);
    if end >= 6 { SliceToEnd(exts, 4, end, 2); }
    if U16(exts[0], exts[1]) == 0 && ScanNames(utf8, exts[6..end]).Answer? {
      i := FirstSound(utf8, exts, end, host);
      e := 0;
    } else {
      e, i := ExtensionsSound(utf8, exts[end..], host);
      FoundInRest(utf8, exts, end, e, i, host);
      e, i := end + e, end + i;
    }
  }

  lemma BodySound(utf8: Bytes -> bool, body: Bytes, host: Bytes) returns (e: nat, i: nat)
    requires ParseBody(utf8, body) == Some(host)
    ensures FoundAt(utf8, body, e, i, host)
  {
    var at := ExtensionsAt(body).value;
    var to := Min(at + 2 + U16(body[at], body[at + 1]), |body|);
    e, i := ExtensionsSound(utf8, body[at + 2..to], host);
    FoundInSlice(utf8, body, at + 2, to, e, i, host);
    e, i := at + 2 + e, at + 2 + i;
  }

  /** Whatever the bytes, a name that is found is valid text that lies in the first record, a handshake record
      whose message is a ClientHello, inside an extension of type zero, after a zero byte and its own length. */
  lemma FoundIsThere(utf8: Bytes -> bool, buf: Bytes, host: Bytes) returns (e: nat, i: nat)
    requires Parse(utf8, buf) == Some(host)
    ensures |buf| >= 6 && buf[0] == 22 && buf[5] == 1 && FoundAt(utf8, buf, e, i, host)
    ensures i + |host| <= 5 + buf[3] as int * 256 + buf[4] as int <= |buf|
  {
    var end := 5 + RecordLength(buf);
    SliceToEnd(buf, 5, end, 4);
    e, i := BodySound(utf8, buf[9..end], host);
    FoundInSlice(utf8, buf, 9, end, e, i, host);
    e, i := 9 + e, 9 + i;
  }
}
