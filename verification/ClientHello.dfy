// Finding the server name in a TLS ClientHello: extractSNI of internal/proxy/server.go.
// Formats: section 4.1.2 of RFC 8446 and section 3 of RFC 6066.
module ClientHello {
  import opened Common

  // -------------------------------------------------------------------- encoding

  /** A vector with a one-byte length, and one with a two-byte length. */
  ghost function Vec8(v: bytes): bytes
    requires |v| < 256
  {
    [|v| as byte] + v
  }

  ghost function Vec16(v: bytes): bytes
    requires |v| < 0x1_0000
  {
    U16Bytes(|v|) + v
  }

  datatype Extension = Extension(kind: nat, body: bytes) {
    predicate Fits() { kind < 0x1_0000 && |body| < 0x1_0000 }
  }

  ghost function Encode(e: Extension): bytes
    requires e.Fits()
  {
    U16Bytes(e.kind) + Vec16(e.body)
  }

  predicate OtherTypes(es: seq<Extension>) {
    forall e :: e in es ==> e.Fits() && e.kind != 0
  }

  ghost function EncodeAll(es: seq<Extension>): bytes
    requires OtherTypes(es)
  {
    if es == [] then [] else Encode(es[0]) + EncodeAll(es[1..])
  }

  // --------------------------------------------------------------------- parsing

  datatype Range = Range(start: nat, end: nat)

  /** Where the extension block lies, by its declared length; it may run past the data. */
  function Block(data: bytes): Option<Range> {
    if |data| < 44 || data[0] != 0x16 || data[5] != 0x01 then None else
      var suites := 44 + data[43] as int;
      if |data| < suites + 2 then None else
        var compression := suites + 2 + U16(data[suites], data[suites + 1]);
        if |data| < compression + 1 then None else
          var extensions := compression + 1 + data[compression] as int;
          if |data| < extensions + 2 then None else
            Some(Range(extensions + 2, extensions + 2 + U16(data[extensions], data[extensions + 1])))
  }

  /** The first name of the server_name extension whose body starts at pos. */
  function NameAt(data: bytes, pos: nat, end: nat): bytes
    requires end <= |data|
  {
    if pos + 5 > end || data[pos + 2] != 0x00 then [] else
      var n := U16(data[pos + 3], data[pos + 4]);
      if pos + 5 + n > end then [] else data[pos + 5..pos + 5 + n]
  }

  function Walk(data: bytes, pos: nat, end: nat): bytes
    requires end <= |data|
    decreases end - pos
  {
    if pos + 4 > end then []
    else if U16(data[pos], data[pos + 1]) == 0 then NameAt(data, pos + 4, end)
    else Walk(data, pos + 4 + U16(data[pos + 2], data[pos + 3]), end)
  }

  function Min(a: nat, b: nat): nat {
    if a <= b then a else b
  }

  function SniOf(data: bytes): bytes {
    match Block(data)
    case None => []
    case Some(r) => Walk(data, r.start, Min(r.end, |data|))
  }

  /** The first half of extractSNI: step over everything before the extensions. */
  method FindExtensions(data: bytes) returns (block: Option<Range>)
    ensures block == Block(data)
  {
    if |data| < 5 || data[0] != 0x16 {
      return None;
    }
    var pos := 5;
    if |data| < pos + 4 || data[pos] != 0x01 {
      return None;
    }
    pos := pos + 4;
    if |data| < pos + 34 {
      return None;
    }
    pos := pos + 34;
    if |data| < pos + 1 {
      return None;
    }
    var sessionIDLen := data[pos] as int;
    pos := pos + 1 + sessionIDLen;
    if |data| < pos + 2 {
      return None;
    }
    var cipherSuitesLen := U16(data[pos], data[pos + 1]);
    pos := pos + 2 + cipherSuitesLen;
    if |data| < pos + 1 {
      return None;
    }
    var compressionLen := data[pos] as int;
    pos := pos + 1 + compressionLen;
    if |data| < pos + 2 {
      return None;
    }
    var extensionsLen := U16(data[pos], data[pos + 1]);
    pos := pos + 2;
    return Some(Range(pos, pos + extensionsLen));
  }

  /** The second half: walk the extensions up to the server_name one. */
  method WalkExtensions(data: bytes, start: nat, endPos: nat) returns (name: bytes)
    requires endPos <= |data|
    ensures name == Walk(data, start, endPos)
  {
    var pos := start;
    while pos + 4 <= endPos
      invariant Walk(data, pos, endPos) == Walk(data, start, endPos)
      decreases endPos - pos
    {
      var extType := U16(data[pos], data[pos + 1]);
      var extLen := U16(data[pos + 2], data[pos + 3]);
      pos := pos + 4;
      if extType == 0x0000 {
        if pos + 5 > endPos {
          return [];
        }
        if data[pos + 2] != 0x00 {
          return [];
        }
        var nameLen := U16(data[pos + 3], data[pos + 4]);
        if pos + 5 + nameLen > endPos {
          return [];
        }
        return data[pos + 5..pos + 5 + nameLen];
      }
      pos := pos + extLen;
    }
    return [];
  }

  method ExtractSNI(data: bytes) returns (name: bytes)
    ensures name == SniOf(data)
  {
    var block := FindExtensions(data);
    if block.None? {
      return [];
    }
    var pos, endPos := block.value.start, block.value.end;
    if endPos > |data| {
      endPos := |data|;
    }
    name := WalkExtensions(data, pos, endPos);
  }

  // ------------------------------------------------------------ prefixes of the data

  lemma NameOnPrefix(data: bytes, k: nat, pos: nat, end: nat, fullEnd: nat)
    requires k <= |data| && end <= k && end <= fullEnd <= |data|
    ensures NameAt(data[..k], pos, end) == [] || NameAt(data[..k], pos, end) == NameAt(data, pos, fullEnd)
  {
  }

  lemma {:induction false} WalkOnPrefix(data: bytes, k: nat, pos: nat, end: nat, fullEnd: nat)
    requires k <= |data| && end <= k && end <= fullEnd <= |data|
    ensures Walk(data[..k], pos, end) == [] || Walk(data[..k], pos, end) == Walk(data, pos, fullEnd)
    decreases end - pos
  {
    if pos + 4 <= end {
      assert forall i :: 0 <= i < k ==> data[..k][i] == data[i];
      if U16(data[pos], data[pos + 1]) == 0 {
        NameOnPrefix(data, k, pos + 4, end, fullEnd);
      } else {
        WalkOnPrefix(data, k, pos + 4 + U16(data[pos + 2], data[pos + 3]), end, fullEnd);
      }
    }
  }

  /** A short first read finds no name or the right one. */
  lemma PrefixMonotone(data: bytes, k: nat)
    requires k <= |data|
    ensures SniOf(data[..k]) == [] || SniOf(data[..k]) == SniOf(data)
  {
    if Block(data[..k]).Some? {
      var r := Block(data[..k]).value;
      assert Block(data) == Some(r);
      WalkOnPrefix(data, k, r.start, Min(r.end, k), Min(r.end, |data|));
    }
  }

  lemma {:induction false} WalkIgnoresBeyond(data: bytes, more: bytes, pos: nat, end: nat)
    requires end <= |data|
    ensures Walk(data + more, pos, end) == Walk(data, pos, end)
    decreases end - pos
  {
    if pos + 4 <= end {
      if U16(data[pos], data[pos + 1]) == 0 {
        assert NameAt(data + more, pos + 4, end) == NameAt(data, pos + 4, end);
      } else {
        WalkIgnoresBeyond(data, more, pos + 4 + U16(data[pos + 2], data[pos + 3]), end);
      }
    }
  }

  /** Once the extension block is complete, what follows it never matters. */
  lemma BeyondBlockIgnored(data: bytes, more: bytes)
    requires Block(data).Some? && Block(data).value.end <= |data|
    ensures SniOf(data + more) == SniOf(data)
  {
    var r := Block(data).value;
    assert Block(data + more) == Some(r);
    WalkIgnoresBeyond(data, more, r.start, r.end);
  }

  // ------------------------------------------- exactly which messages carry a name

  /** A message with a server_name extension, cut into the parts the parser steps over. head is the
      record and handshake headers, version and random; skipped is the extension's own length and
      the length of its list; rest is whatever follows the name. */
  datatype Layout = Layout(head: bytes, session: bytes, suites: bytes, compression: bytes, blockLen: nat,
                           before: seq<Extension>, skipped: bytes, name: bytes, rest: bytes)

  ghost predicate Fits(l: Layout) {
    && |l.head| == 43 && l.head[0] == 0x16 && l.head[5] == 0x01
    && |l.session| < 256 && |l.suites| < 0x1_0000 && |l.compression| < 256 && l.blockLen < 0x1_0000
    && OtherTypes(l.before) && |l.skipped| == 4 && |l.name| < 0x1_0000
    && |EncodeAll(l.before)| + 9 + |l.name| <= l.blockLen
  }

  ghost function FromExtensions(l: Layout): bytes
    requires Fits(l)
  {
    EncodeAll(l.before) + ([0, 0] + (l.skipped + ([0] + (Vec16(l.name) + l.rest))))
  }

  ghost function Bytes(l: Layout): bytes
    requires Fits(l)
  {
    l.head + (Vec8(l.session) + (Vec16(l.suites) + (Vec8(l.compression) + (U16Bytes(l.blockLen) + FromExtensions(l)))))
  }

  /** Where the extensions start. */
  ghost function Front(l: Layout): nat {
    49 + |l.session| + |l.suites| + |l.compression|
  }

  lemma BlockOfLayout(l: Layout)
    requires Fits(l)
    ensures Block(Bytes(l)) == Some(Range(Front(l), Front(l) + l.blockLen))
    ensures Front(l) <= |Bytes(l)| && Bytes(l)[Front(l)..] == FromExtensions(l)
  {
  }

  /** The walk on the bytes of the block themselves instead of on positions. */
  ghost function NameIn(block: bytes): bytes {
    if |block| < 5 || block[2] != 0x00 then [] else
      var n := U16(block[3], block[4]);
      if 5 + n > |block| then [] else block[5..5 + n]
  }

  ghost function Search(block: bytes): bytes {
    if |block| < 4 then []
    else if U16(block[0], block[1]) == 0 then NameIn(block[4..])
    else
      var next := 4 + U16(block[2], block[3]);
      if next > |block| then [] else Search(block[next..])
  }

  lemma NameAtIsNameIn(data: bytes, pos: nat, end: nat)
    requires pos <= end <= |data|
    ensures NameAt(data, pos, end) == NameIn(data[pos..end])
  {
    var block := data[pos..end];
    assert forall i :: 0 <= i < |block| ==> block[i] == data[pos + i];
    if |block| >= 5 {
      var n := U16(block[3], block[4]);
      if 5 + n <= |block| {
        assert block[5..5 + n] == data[pos + 5..pos + 5 + n];
      }
    }
  }

  lemma WalkStep(data: bytes, pos: nat, end: nat, kind: nat, len: nat)
    requires pos + 4 <= end <= |data|
    requires kind == U16(data[pos], data[pos + 1]) && len == U16(data[pos + 2], data[pos + 3])
    ensures Walk(data, pos, end) == if kind == 0 then NameAt(data, pos + 4, end) else Walk(data, pos + 4 + len, end)
  {
  }

  lemma SearchStep(data: bytes, pos: nat, end: nat, kind: nat, len: nat)
    requires pos + 4 <= end <= |data|
    requires kind == U16(data[pos], data[pos + 1]) && len == U16(data[pos + 2], data[pos + 3])
    ensures Search(data[pos..end]) ==
            if kind == 0 then NameIn(data[pos + 4..end])
            else if pos + 4 + len > end then [] else Search(data[pos + 4 + len..end])
  {
  }

  lemma {:induction false} WalkSearches(data: bytes, pos: nat, end: nat)
    requires pos <= end <= |data|
    ensures Walk(data, pos, end) == Search(data[pos..end])
    decreases end - pos
  {
    if pos + 4 <= end {
      var kind, len := U16(data[pos], data[pos + 1]), U16(data[pos + 2], data[pos + 3]);
      WalkStep(data, pos, end, kind, len);
      SearchStep(data, pos, end, kind, len);
      if kind == 0 {
        NameAtIsNameIn(data, pos + 4, end);
      } else if pos + 4 + len <= end {
        WalkSearches(data, pos + 4 + len, end);
      }
    }
  }

  lemma SearchStepsOver(kind: bytes, len: bytes, body: bytes, tail: bytes)
    requires |kind| == 2 && U16(kind[0], kind[1]) != 0 && |len| == 2 && U16(len[0], len[1]) == |body|
    ensures Search(kind + (len + (body + tail))) == Search(tail)
  {
    var block := kind + (len + (body + tail));
    assert block[2] == len[0] && block[3] == len[1];
    assert block[4 + |body|..] == tail;
  }

  lemma EncodedThen(e: Extension, tail: bytes)
    requires e.Fits()
    ensures |Encode(e)| == 4 + |e.body|
    ensures Encode(e) + tail == U16Bytes(e.kind) + (U16Bytes(|e.body|) + (e.body + tail))
  {
  }

  lemma {:induction false} SearchStepsOverAll(es: seq<Extension>, tail: bytes)
    requires OtherTypes(es)
    ensures Search(EncodeAll(es) + tail) == Search(tail)
    decreases es
  {
    if es == [] {
      assert EncodeAll(es) + tail == tail;
    } else {
      var e, more := es[0], EncodeAll(es[1..]);
      assert e in es;
      assert EncodeAll(es) + tail == Encode(e) + (more + tail);
      EncodedThen(e, more + tail);
      SearchStepsOver(U16Bytes(e.kind), U16Bytes(|e.body|), e.body, more + tail);
      SearchStepsOverAll(es[1..], tail);
    }
  }

  lemma SearchFinds(skipped: bytes, len: bytes, name: bytes, rest: bytes)
    requires |skipped| == 4 && |len| == 2 && U16(len[0], len[1]) == |name|
    ensures Search([0, 0] + (skipped + ([0] + (len + (name + rest))))) == name
  {
    var block := [0, 0] + (skipped + ([0] + (len + (name + rest))));
    var inner := block[4..];
    assert inner[2] == 0 && inner[3] == len[0] && inner[4] == len[1];
    var head := [0, 0] + (skipped + ([0] + len));
    assert block == head + (name + rest);
    assert block[9..9 + |name|] == name;
    assert inner[5..5 + |name|] == block[9..9 + |name|];
  }

  /** The part of the extension block that the message still holds. */
  lemma VisibleBlock(l: Layout) returns (end: nat, rest: bytes)
    requires Fits(l)
    ensures Block(Bytes(l)) == Some(Range(Front(l), Front(l) + l.blockLen))
    ensures end == Min(Front(l) + l.blockLen, |Bytes(l)|) && Front(l) <= end
    ensures Bytes(l)[Front(l)..end] ==
            EncodeAll(l.before) + ([0, 0] + (l.skipped + ([0] + (U16Bytes(|l.name|) + (l.name + rest)))))
  {
    var data, pos, before := Bytes(l), Front(l), EncodeAll(l.before);
    BlockOfLayout(l);
    end := Min(pos + l.blockLen, |data|);
    var need := |before| + 9 + |l.name|;
    assert FromExtensions(l) == before + ([0, 0] + (l.skipped + ([0] + (U16Bytes(|l.name|) + (l.name + l.rest)))));
    assert |FromExtensions(l)| == need + |l.rest|;
    rest := l.rest[..end - pos - need];
    assert data[pos..end] == data[pos..][..end - pos];
    CutRest(before, l.skipped, U16Bytes(|l.name|), l.name, l.rest, |rest|);
  }

  lemma CutRest(before: bytes, skipped: bytes, len: bytes, name: bytes, rest: bytes, k: nat)
    requires k <= |rest|
    ensures var head := before + ([0, 0] + (skipped + ([0] + (len + name))));
            (before + ([0, 0] + (skipped + ([0] + (len + (name + rest))))))[..|head| + k] ==
            before + ([0, 0] + (skipped + ([0] + (len + (name + rest[..k])))))
  {
  }

  lemma SniSearches(data: bytes, front: nat, blockLen: nat, end: nat)
    requires Block(data) == Some(Range(front, front + blockLen)) && front <= |data|
    requires end == Min(front + blockLen, |data|)
    ensures SniOf(data) == Search(data[front..end])
  {
    WalkSearches(data, front, end);
  }

  lemma SearchLayout(es: seq<Extension>, skipped: bytes, name: bytes, rest: bytes)
    requires OtherTypes(es) && |skipped| == 4 && |name| < 0x1_0000
    ensures Search(EncodeAll(es) + ([0, 0] + (skipped + ([0] + (U16Bytes(|name|) + (name + rest)))))) == name
  {
    SearchStepsOverAll(es, [0, 0] + (skipped + ([0] + (U16Bytes(|name|) + (name + rest)))));
    SearchFinds(skipped, U16Bytes(|name|), name, rest);
  }

  lemma NameOfBlock(data: bytes, front: nat, blockLen: nat, end: nat, block: bytes,
                    es: seq<Extension>, skipped: bytes, name: bytes, rest: bytes)
    requires Block(data) == Some(Range(front, front + blockLen)) && front <= |data|
    requires end == Min(front + blockLen, |data|) && block == data[front..end]
    requires OtherTypes(es) && |skipped| == 4 && |name| < 0x1_0000
    requires block == EncodeAll(es) + ([0, 0] + (skipped + ([0] + (U16Bytes(|name|) + (name + rest)))))
    ensures SniOf(data) == name
  {
    SearchLayout(es, skipped, name, rest);
    SniSearches(data, front, blockLen, end);
  }

  /** Any message laid out with a name yields that name, whole or cut off after it. */
  lemma LaidOutNameIsFound(l: Layout, data: bytes)
    requires Fits(l) && data == Bytes(l)
    ensures SniOf(data) == l.name
  {
    var end, rest := VisibleBlock(l);
    NameOfBlock(data, Front(l), l.blockLen, end, data[Front(l)..end], l.before, l.skipped, l.name, rest);
  }

  /** Two-byte lengths and kinds, high byte first, written out. */
  lemma ExtensionOnTheWire(k1: byte, k2: byte, n1: byte, n2: byte, body: bytes)
    requires |body| == 256 * n1 as int + n2 as int
    ensures Encode(Extension(256 * k1 as int + k2 as int, body)) == [k1, k2, n1, n2] + body
  {
    assert U16Bytes(256 * k1 as int + k2 as int) == [k1, k2] && U16Bytes(|body|) == [n1, n2];
  }

  lemma BytesOnTheWire(l: Layout, s1: byte, s2: byte, b1: byte, b2: byte, n1: byte, n2: byte)
    requires Fits(l) && |l.suites| == 256 * s1 as int + s2 as int
    requires l.blockLen == 256 * b1 as int + b2 as int && |l.name| == 256 * n1 as int + n2 as int
    ensures Bytes(l) ==
            l.head + ([|l.session| as byte] + l.session +
            ([s1, s2] + l.suites + ([|l.compression| as byte] + l.compression +
            ([b1, b2] + (EncodeAll(l.before) + ([0, 0] + (l.skipped + ([0] + ([n1, n2] + l.name + l.rest)))))))))
  {
    assert U16Bytes(|l.suites|) == [s1, s2] && U16Bytes(l.blockLen) == [b1, b2] && U16Bytes(|l.name|) == [n1, n2];
  }

  /** A message with its lengths written out byte by byte yields its name. */
  lemma HelloOnTheWire(head: bytes, session: bytes, s1: byte, s2: byte, suites: bytes, compression: bytes,
                       b1: byte, b2: byte, before: seq<Extension>, skipped: bytes,
                       n1: byte, n2: byte, name: bytes, rest: bytes)
    requires |head| == 43 && head[0] == 0x16 && head[5] == 0x01 && |session| < 256 && |compression| < 256
    requires |suites| == 256 * s1 as int + s2 as int && |name| == 256 * n1 as int + n2 as int
    requires OtherTypes(before) && |skipped| == 4
    requires |EncodeAll(before)| + 9 + |name| <= 256 * b1 as int + b2 as int
    ensures SniOf(head + ([|session| as byte] + session +
                  ([s1, s2] + suites + ([|compression| as byte] + compression +
                  ([b1, b2] + (EncodeAll(before) + ([0, 0] + (skipped + ([0] + ([n1, n2] + name + rest))))))))))
            == name
  {
    var l := Layout(head, session, suites, compression, 256 * b1 as int + b2 as int, before, skipped, name, rest);
    BytesOnTheWire(l, s1, s2, b1, b2, n1, n2);
    LaidOutNameIsFound(l, Bytes(l));
  }

  // --- and conversely

  lemma Vec16Slice(s: bytes, i: nat, n: nat)
    requires i + 2 + n <= |s| && n == U16(s[i], s[i + 1])
    ensures Vec16(s[i + 2..i + 2 + n]) == s[i..i + 2 + n]
  {
  }

  lemma DecodeFirst(block: bytes) returns (e: Extension)
    requires |block| >= 4 && U16(block[0], block[1]) != 0
    requires 4 + U16(block[2], block[3]) <= |block|
    ensures e.Fits() && e.kind != 0 && |e.body| == U16(block[2], block[3])
    ensures block == Encode(e) + block[4 + |e.body|..]
  {
    var next := 4 + U16(block[2], block[3]);
    e := Extension(U16(block[0], block[1]), block[4..next]);
    U16BytesInverse(block[0], block[1]);
    Vec16Slice(block, 2, next - 4);
    assert block == [block[0], block[1]] + block[2..next] + block[next..];
  }

  lemma NameInAt(block: bytes, n: nat)
    requires |block| >= 9 && n == U16(block[7], block[8]) && NameIn(block[4..]) != []
    ensures block[6] == 0 && 9 + n <= |block| && NameIn(block[4..]) == block[9..9 + n]
  {
  }

  lemma NamePieces(block: bytes, n: nat)
    requires 9 + n <= |block| && block[0] == 0 && block[1] == 0 && block[6] == 0
    ensures block == [0, 0] + (block[2..6] + ([0] + (block[7..9 + n] + block[9 + n..])))
  {
  }

  lemma DecodeName(block: bytes, name: bytes) returns (skipped: bytes, rest: bytes)
    requires |block| >= 4 && U16(block[0], block[1]) == 0 && NameIn(block[4..]) == name != []
    ensures |skipped| == 4 && |name| < 0x1_0000
    ensures block == [0, 0] + (skipped + ([0] + (Vec16(name) + rest)))
  {
    var n := U16(block[7], block[8]);
    NameInAt(block, n);
    NamePieces(block, n);
    Vec16Slice(block, 7, n);
    skipped, rest := block[2..6], block[9 + n..];
  }

  lemma SearchUnfolds(block: bytes)
    requires Search(block) != []
    ensures |block| >= 4
    ensures U16(block[0], block[1]) == 0 ==> Search(block) == NameIn(block[4..])
    ensures U16(block[0], block[1]) != 0 ==>
              var next := 4 + U16(block[2], block[3]);
              next <= |block| && Search(block) == Search(block[next..])
  {
  }

  lemma PrependExtension(block: bytes, e: Extension, more: bytes, es: seq<Extension>, tail: bytes)
    requires e.Fits() && e.kind != 0 && OtherTypes(es)
    requires block == Encode(e) + more && more == EncodeAll(es) + tail
    ensures OtherTypes([e] + es) && block == EncodeAll([e] + es) + tail
  {
  }

  ghost predicate EntryFor(entry: bytes, skipped: bytes, name: bytes, rest: bytes)
    requires |name| < 0x1_0000
  {
    |skipped| == 4 && entry == [0, 0] + (skipped + ([0] + (Vec16(name) + rest)))
  }

  /** If the search finds a name, the block is some other extensions and then that name. */
  lemma {:induction false} SearchDecodes(block: bytes, name: bytes)
    returns (es: seq<Extension>, entry: bytes, skipped: bytes, rest: bytes)
    requires Search(block) == name != []
    ensures |name| < 0x1_0000 && OtherTypes(es) && EntryFor(entry, skipped, name, rest)
    ensures block == EncodeAll(es) + entry
    decreases block
  {
    SearchUnfolds(block);
    if U16(block[0], block[1]) == 0 {
      skipped, rest := DecodeName(block, name);
      es, entry := [], block;
      assert [] + block == block;
    } else {
      var e := DecodeFirst(block);
      var more := block[4 + |e.body|..];
      es, entry, skipped, rest := SearchDecodes(more, name);
      PrependExtension(block, e, more, es, entry);
      es := [e] + es;
    }
  }

  /** What Block reads off the front. */
  ghost predicate FrontIs(data: bytes, session: nat, suites: nat, compression: nat, front: nat) {
    && front == 49 + session + suites + compression <= |data|
    && data[0] == 0x16 && data[5] == 0x01 && data[43] as int == session
    && U16(data[44 + session], data[45 + session]) == suites
    && data[46 + session + suites] as int == compression
  }

  lemma BlockReadsFront(data: bytes) returns (session: nat, suites: nat, compression: nat, front: nat)
    requires Block(data).Some?
    ensures FrontIs(data, session, suites, compression, front)
    ensures Block(data) == Some(Range(front, front + U16(data[front - 2], data[front - 1])))
  {
    session := data[43] as int;
    suites := U16(data[44 + session], data[45 + session]);
    compression := data[46 + session + suites] as int;
    front := 49 + session + suites + compression;
  }

  lemma FrontPieces(data: bytes, session: nat, suites: nat, compression: nat, front: nat, p1: nat, p2: nat, p3: nat)
    requires FrontIs(data, session, suites, compression, front)
    requires p1 == 44 + session && p2 == p1 + 2 + suites && p3 == p2 + 1 + compression == front - 2
    ensures p1 - 44 < 256 && p2 - (p1 + 2) < 0x1_0000 && p3 - (p2 + 1) < 256
    ensures data == data[..43] + (Vec8(data[44..p1]) + (Vec16(data[p1 + 2..p2]) +
                    (Vec8(data[p2 + 1..p3]) + (U16Bytes(U16(data[p3], data[p3 + 1])) + data[front..]))))
  {
  }

  lemma TailPieces(data: bytes, front: nat, end: nat, es: seq<Extension>, entry: bytes,
                   skipped: bytes, name: bytes, rest: bytes)
    requires front <= end <= |data| && OtherTypes(es) && |name| < 0x1_0000
    requires data[front..end] == EncodeAll(es) + entry && EntryFor(entry, skipped, name, rest)
    ensures |EncodeAll(es)| + 9 + |name| <= end - front
    ensures data[front..] == EncodeAll(es) + ([0, 0] + (skipped + ([0] + (Vec16(name) + (rest + data[end..])))))
  {
  }

  /** The layout read off a front and a block that ends in the name. */
  lemma PutTogether(data: bytes, session: nat, suites: nat, compression: nat, front: nat, end: nat,
                    es: seq<Extension>, entry: bytes, skipped: bytes, name: bytes, rest: bytes) returns (l: Layout)
    requires FrontIs(data, session, suites, compression, front) && OtherTypes(es) && |name| < 0x1_0000
    requires end == Min(front + U16(data[front - 2], data[front - 1]), |data|)
    requires data[front..end] == EncodeAll(es) + entry && EntryFor(entry, skipped, name, rest)
    ensures Fits(l) && Bytes(l) == data && l.name == name
  {
    TailPieces(data, front, end, es, entry, skipped, name, rest);
    var p1, p2 := 44 + session, 46 + session + suites;
    FrontPieces(data, session, suites, compression, front, p1, p2, front - 2);
    l := Layout(data[..43], data[44..p1], data[p1 + 2..p2], data[p2 + 1..front - 2],
                U16(data[front - 2], data[front - 1]), es, skipped, name, rest + data[end..]);
  }

  /** Whatever yields a name is laid out with that name. */
  lemma FoundNameIsLaidOut(data: bytes, name: bytes) returns (l: Layout)
    requires SniOf(data) == name != []
    ensures Fits(l) && Bytes(l) == data && l.name == name
  {
    var session, suites, compression, front := BlockReadsFront(data);
    var blockLen := U16(data[front - 2], data[front - 1]);
    var end := Min(front + blockLen, |data|);
    SniSearches(data, front, blockLen, end);
    var es, entry, skipped, rest := SearchDecodes(data[front..end], name);
    l := PutTogether(data, session, suites, compression, front, end, es, entry, skipped, name, rest);
  }

  /** extractSNI finds a name exactly in the messages laid out with it. */
  lemma NameIffLaidOut(data: bytes, name: bytes)
    requires name != []
    ensures SniOf(data) == name <==> exists l :: Fits(l) && Bytes(l) == data && l.name == name
  {
    if SniOf(data) == name {
      var l := FoundNameIsLaidOut(data, name);
    }
    if l :| Fits(l) && Bytes(l) == data && l.name == name {
      LaidOutNameIsFound(l, data);
    }
  }

  // ------------------------------------------------------------ a whole ClientHello

  /** Any extensions, one server_name extension with one host_name entry, then anything else. */
  datatype Hello = Hello(recordVersion: bytes, version: bytes, random: bytes, session: bytes, suites: bytes,
                         compression: bytes, before: seq<Extension>, name: bytes, after: bytes)

  ghost function ServerName(name: bytes): Extension
    requires |name| + 5 < 0x1_0000
  {
    Extension(0, Vec16([0] + Vec16(name)))
  }

  ghost predicate HelloFits(h: Hello) {
    && |h.recordVersion| == 2 && |h.version| == 2 && |h.random| == 32
    && |h.session| < 256 && |h.suites| < 0x1_0000 && |h.compression| < 256
    && OtherTypes(h.before) && |h.name| + 5 < 0x1_0000
    && |EncodeAll(h.before)| + 9 + |h.name| + |h.after| < 0x1_0000
    && 4 + |Body(h)| < 0x1_0000
  }

  ghost function Extensions(h: Hello): bytes
    requires OtherTypes(h.before) && |h.name| + 5 < 0x1_0000
  {
    EncodeAll(h.before) + (Encode(ServerName(h.name)) + h.after)
  }

  /** The ClientHello structure. */
  ghost function Body(h: Hello): bytes
    requires |h.session| < 256 && |h.suites| < 0x1_0000 && |h.compression| < 256
    requires OtherTypes(h.before) && |h.name| + 5 < 0x1_0000
    requires |EncodeAll(h.before)| + 9 + |h.name| + |h.after| < 0x1_0000
  {
    (h.version + h.random) +
    (Vec8(h.session) + (Vec16(h.suites) + (Vec8(h.compression) + Vec16(Extensions(h)))))
  }

  /** Handshake header with its three-byte length, inside one record. */
  ghost function Serialize(h: Hello): bytes
    requires HelloFits(h)
  {
    var handshake := [0x01, 0] + Vec16(Body(h));
    [0x16] + h.recordVersion + Vec16(handshake)
  }

  /** Lengths of the server_name extension and of its list. */
  ghost function NameLengths(name: bytes): bytes
    requires |name| + 5 < 0x1_0000
  {
    U16Bytes(5 + |name|) + U16Bytes(3 + |name|)
  }

  ghost function HelloLayout(h: Hello, more: bytes): Layout
    requires HelloFits(h)
  {
    Layout(RecordFront(h) + (h.version + h.random),
           h.session, h.suites, h.compression, |Extensions(h)|, h.before, NameLengths(h.name), h.name, h.after + more)
  }

  lemma ExtensionsThen(h: Hello, more: bytes)
    requires OtherTypes(h.before) && |h.name| + 5 < 0x1_0000
    ensures |Extensions(h)| == |EncodeAll(h.before)| + 9 + |h.name| + |h.after|
    ensures Extensions(h) + more ==
            EncodeAll(h.before) + ([0, 0] + (NameLengths(h.name) + ([0] + (Vec16(h.name) + (h.after + more)))))
  {
  }

  lemma Assemble(front: bytes, vr: bytes, a: bytes, b: bytes, c: bytes, len: bytes, d: bytes, more: bytes,
                 body: bytes, all: bytes)
    requires body == vr + (a + (b + (c + (len + d)))) && all == front + body
    ensures all + more == (front + vr) + (a + (b + (c + (len + (d + more)))))
  {
  }

  lemma HelloLayoutFits(h: Hello, more: bytes)
    requires HelloFits(h)
    ensures Fits(HelloLayout(h, more))
  {
  }

  ghost function RecordFront(h: Hello): bytes
    requires HelloFits(h)
  {
    [0x16] + h.recordVersion + U16Bytes(4 + |Body(h)|) + ([0x01, 0] + U16Bytes(|Body(h)|))
  }

  lemma SerializeSplits(h: Hello)
    requires HelloFits(h)
    ensures Serialize(h) == RecordFront(h) + Body(h)
  {
  }

  lemma SerializeIsLaidOut(h: Hello, more: bytes)
    requires HelloFits(h)
    ensures Fits(HelloLayout(h, more)) && Bytes(HelloLayout(h, more)) == Serialize(h) + more
  {
    HelloLayoutFits(h, more);
    ExtensionsThen(h, more);
    SerializeSplits(h);
    Assemble(RecordFront(h), h.version + h.random, Vec8(h.session), Vec16(h.suites), Vec8(h.compression),
             U16Bytes(|Extensions(h)|), Extensions(h), more, Body(h), Serialize(h));
  }

  /** Serialising a ClientHello and parsing it, whatever follows the record, gives back its name. */
  lemma HelloRoundTrip(h: Hello, more: bytes)
    requires HelloFits(h)
    ensures SniOf(Serialize(h) + more) == h.name
  {
    SerializeIsLaidOut(h, more);
    LaidOutNameIsFound(HelloLayout(h, more), Serialize(h) + more);
  }
}
