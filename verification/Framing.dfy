/** The byte streams that are hashed: length-prefixed components, and the decoders that read them back.

    SHA-256 itself is not modelled. What is proved is that two different inputs never feed it the same
    bytes. Text components are given as their UTF-8 bytes. */
module Framing {
  import opened Wrappers
  import opened Digits
  import opened Arithmetic

  type Byte = b: int | 0 <= b < 256

  function Pow256(n: nat): (p: nat)
    ensures p >= 1
  {
    if n == 0 then 1 else 256 * Pow256(n - 1)
  }

  /** `n.to_bytes(width, "big")`, for an `n` that fits. */
  function ToBytes(n: nat, width: nat): (bs: seq<Byte>)
    requires n < Pow256(width)
    ensures |bs| == width
  {
    if width == 0 then [] else ToBytes(n / 256, width - 1) + [n % 256]
  }

  function FromBytes(bs: seq<Byte>): nat {
    if bs == [] then 0 else 256 * FromBytes(bs[..|bs| - 1]) + bs[|bs| - 1]
  }

  lemma {:induction false} FromToBytes(n: nat, width: nat)
    requires n < Pow256(width)
    ensures FromBytes(ToBytes(n, width)) == n
  {
    if width > 0 {
      FromToBytes(n / 256, width - 1);
      assert ToBytes(n, width)[..width - 1] == ToBytes(n / 256, width - 1);
    }
  }

  /** Big-endian: the byte at position `i` is the coefficient of 256 to the number of bytes after it. */
  lemma {:induction false} BigEndian(n: nat, width: nat, i: nat)
    requires n < Pow256(width) && i < width
    ensures ToBytes(n, width)[i] == n / Pow256(width - 1 - i) % 256
  {
    if i < width - 1 {
      BigEndian(n / 256, width - 1, i);
      DivideTwice(n, Pow256(width - 2 - i));
    }
  }

  lemma DivideTwice(n: nat, p: nat)
    requires p >= 1
    ensures n / (256 * p) == n / 256 / p
  {
    var q := n / 256 / p;
    var r := n / 256 % p;
    assert n / 256 == p * q + r;
    assert n == 256 * (p * q + r) + n % 256;
    assert 256 * (p * q + r) == q * (256 * p) + 256 * r;
    Quotient(n, 256 * p, q, 256 * r + n % 256);
  }

  predicate Fits(width: nat, payload: seq<Byte>) {
    |payload| < Pow256(width)
  }

  /** One component: its length in `width` bytes, then its bytes. */
  function Frame(width: nat, payload: seq<Byte>): seq<Byte>
    requires Fits(width, payload)
  {
    ToBytes(|payload|, width) + payload
  }

  /** Reads one component off the front of a stream. */
  function ReadFrame(width: nat, s: seq<Byte>): Option<(seq<Byte>, seq<Byte>)> {
    if |s| < width then None
    else
      var n := FromBytes(s[..width]);
      if |s| < width + n then None else Some((s[width..width + n], s[width + n..]))
  }

  lemma ReadFrameOfFrame(width: nat, payload: seq<Byte>, rest: seq<Byte>)
    requires Fits(width, payload)
    ensures ReadFrame(width, Frame(width, payload) + rest) == Some((payload, rest))
  {
    var s := Frame(width, payload) + rest;
    FromToBytes(|payload|, width);
    assert s[..width] == ToBytes(|payload|, width);
    assert s[width..width + |payload|] == payload;
    assert s[width + |payload|..] == rest;
  }

  // ----- a list of components -----------------------------------------------------------------

  predicate AllFit(width: nat, parts: seq<seq<Byte>>) {
    forall i :: 0 <= i < |parts| ==> Fits(width, parts[i])
  }

  function Frames(width: nat, parts: seq<seq<Byte>>): seq<Byte>
    requires AllFit(width, parts)
  {
    if parts == [] then [] else Frame(width, parts[0]) + Frames(width, parts[1..])
  }

  function ReadFrames(width: nat, n: nat, s: seq<Byte>): Option<(seq<seq<Byte>>, seq<Byte>)> {
    if n == 0 then Some(([], s))
    else
      match ReadFrame(width, s)
      case None => None
      case Some((first, rest)) =>
        match ReadFrames(width, n - 1, rest)
        case None => None
        case Some((others, left)) => Some(([first] + others, left))
  }

  lemma {:induction false} ReadFramesOfFrames(width: nat, parts: seq<seq<Byte>>, rest: seq<Byte>)
    requires AllFit(width, parts)
    ensures ReadFrames(width, |parts|, Frames(width, parts) + rest) == Some((parts, rest))
  {
    if parts == [] {
      assert Frames(width, parts) + rest == rest;
    } else {
      ReadFramesOfFrames(width, parts[1..], rest);
      ReadFrameOfFrame(width, parts[0], Frames(width, parts[1..]) + rest);
      FirstFrame(width, parts, rest);
    }
  }

  lemma FirstFrame(width: nat, parts: seq<seq<Byte>>, rest: seq<Byte>)
    requires AllFit(width, parts) && parts != []
    ensures Frames(width, parts) + rest == Frame(width, parts[0]) + (Frames(width, parts[1..]) + rest)
    ensures parts == [parts[0]] + parts[1..]
  {}

  // ----- domain-tagged streams ----------------------------------------------------------------

  function Ascii(s: string): (bs: seq<Byte>)
    ensures |bs| == |s|
  {
    seq(|s|, i requires 0 <= i < |s| => (s[i] as int) % 256)
  }

  /** ASCII characters are their own bytes. */
  lemma AsciiIs(s: string, i: nat)
    requires i < |s| && s[i] < 128 as char
    ensures Ascii(s)[i] as char == s[i]
  {}

  const FIXTURES_TAG := Ascii("lecp.fixtures.v1")
  const OPERATION_TAG := Ascii("lecp.operation.v1")
  const INSTRUCTION_TAG := Ascii("lecp.instruction.v1")

  /** The three tags, character for character. */
  lemma TagTexts(i: nat)
    ensures |FIXTURES_TAG| == 16 && |OPERATION_TAG| == 17 && |INSTRUCTION_TAG| == 19
    ensures i < 16 ==> FIXTURES_TAG[i] as char == "lecp.fixtures.v1"[i]
    ensures i < 17 ==> OPERATION_TAG[i] as char == "lecp.operation.v1"[i]
    ensures i < 19 ==> INSTRUCTION_TAG[i] as char == "lecp.instruction.v1"[i]
  {}

  /** The bytes `_digest` hashes for one fixture draw, or None where a length does not fit its prefix. */
  function DrawStream(domain: seq<Byte>, seed: int, labelText: seq<Byte>): Option<seq<Byte>> {
    var parts := [domain, Ascii(IntText(seed)), labelText];
    if AllFit(4, parts) then Some(FIXTURES_TAG + Frames(4, parts)) else None
  }

  /** The loop of `_digest`: the hasher is fed the tag and then each framed part. */
  method FeedDraw(domain: seq<Byte>, seed: int, labelText: seq<Byte>) returns (fed: Option<seq<Byte>>)
    ensures fed == DrawStream(domain, seed, labelText)
  {
    fed := FeedFrames(FIXTURES_TAG, [domain, Ascii(IntText(seed)), labelText]);
  }

  /** One length prefix and one payload for each part, after the tag. */
  method FeedFrames(tag: seq<Byte>, parts: seq<seq<Byte>>) returns (fed: Option<seq<Byte>>)
    ensures fed == if AllFit(4, parts) then Some(tag + Frames(4, parts)) else None
  {
    var hasher := tag;
    for i := 0 to |parts|
      invariant AllFit(4, parts[..i])
      invariant hasher == tag + Frames(4, parts[..i])
    {
      var encoded := parts[i];
      if |encoded| >= Pow256(4) {
        return None;
      }
      FeedStep(tag, parts[..i], encoded);
      assert parts[..i + 1] == parts[..i] + [encoded];
      hasher := hasher + ToBytes(|encoded|, 4);
      hasher := hasher + encoded;
    }
    assert parts[..|parts|] == parts;
    fed := Some(hasher);
  }

  lemma FeedStep(tag: seq<Byte>, fed: seq<seq<Byte>>, part: seq<Byte>)
    requires AllFit(4, fed) && Fits(4, part)
    ensures AllFit(4, fed + [part])
    ensures tag + Frames(4, fed) + ToBytes(|part|, 4) + part == tag + Frames(4, fed + [part])
  {
    FramesAppend(4, fed, part);
  }

  lemma {:induction false} FramesAppend(width: nat, parts: seq<seq<Byte>>, last: seq<Byte>)
    requires AllFit(width, parts) && Fits(width, last)
    ensures AllFit(width, parts + [last])
    ensures Frames(width, parts + [last]) == Frames(width, parts) + Frame(width, last)
  {
    if parts == [] {
      assert parts + [last] == [last];
      assert [last][1..] == [];
    } else {
      FramesAppend(width, parts[1..], last);
      assert (parts + [last])[1..] == parts[1..] + [last];
    }
  }

  /** Reads domain, seed text and label back from a draw stream. */
  function DecodeDraw(s: seq<Byte>): Option<(seq<Byte>, seq<Byte>, seq<Byte>)> {
    if |s| < |FIXTURES_TAG| then None
    else
      match ReadFrames(4, 3, s[|FIXTURES_TAG|..])
      case None => None
      case Some((parts, rest)) =>
        if |parts| == 3 && rest == [] then Some((parts[0], parts[1], parts[2])) else None
  }

  lemma DecodeDrawOfStream(domain: seq<Byte>, seed: int, labelText: seq<Byte>)
    requires DrawStream(domain, seed, labelText).Some?
    ensures DecodeDraw(DrawStream(domain, seed, labelText).value)
            == Some((domain, Ascii(IntText(seed)), labelText))
  {
    var parts := [domain, Ascii(IntText(seed)), labelText];
    var s := FIXTURES_TAG + Frames(4, parts);
    ReadFramesOfFrames(4, parts, []);
    assert s[|FIXTURES_TAG|..] == Frames(4, parts) + [];
  }

  lemma AsciiInjective(a: string, b: string)
    requires forall i :: 0 <= i < |a| ==> a[i] < 128 as char
    requires forall i :: 0 <= i < |b| ==> b[i] < 128 as char
    ensures Ascii(a) == Ascii(b) ==> a == b
  {
    if Ascii(a) == Ascii(b) {
      assert |a| == |b|;
      forall i | 0 <= i < |a| ensures a[i] == b[i] {
        assert Ascii(a)[i] == Ascii(b)[i];
      }
    }
  }

  lemma SeedTextInjective(x: int, y: int)
    ensures Ascii(IntText(x)) == Ascii(IntText(y)) ==> x == y
  {
    AsciiInjective(IntText(x), IntText(y));
    IntRoundTrip(x);
    IntRoundTrip(y);
  }

  /** The draw stream is uniquely decodable: equal streams have equal domain, seed and label. */
  lemma DrawStreamInjective(d1: seq<Byte>, s1: int, l1: seq<Byte>, d2: seq<Byte>, s2: int, l2: seq<Byte>)
    requires DrawStream(d1, s1, l1).Some?
    requires DrawStream(d1, s1, l1) == DrawStream(d2, s2, l2)
    ensures d1 == d2 && s1 == s2 && l1 == l2
  {
    DecodeDrawOfStream(d1, s1, l1);
    DecodeDrawOfStream(d2, s2, l2);
    SeedTextInjective(s1, s2);
  }

  /** 64 lower-case hexadecimal digits. */
  predicate IsSha256HexBytes(bs: seq<Byte>) {
    |bs| == 64 && forall i :: 0 <= i < |bs| ==> 48 <= bs[i] <= 57 || 97 <= bs[i] <= 102
  }

  /** The bytes hashed into an operation identifier; None for a version below one or a malformed hash. */
  function OperationStream(exceptionId: seq<Byte>, version: int, payloadHash: seq<Byte>): Option<seq<Byte>> {
    var parts := [exceptionId, Ascii(IntText(version)), payloadHash];
    if version >= 1 && IsSha256HexBytes(payloadHash) && AllFit(8, parts)
    then Some(OPERATION_TAG + Frames(8, parts))
    else None
  }

  /** The approval's exception, its version and the instruction's hash are recoverable from the stream:
      two resolutions share one only if they are the same resolution of the same instruction. */
  lemma OperationStreamInjective(
    e1: seq<Byte>, v1: int, h1: seq<Byte>, e2: seq<Byte>, v2: int, h2: seq<Byte>)
    requires OperationStream(e1, v1, h1).Some?
    requires OperationStream(e1, v1, h1) == OperationStream(e2, v2, h2)
    ensures e1 == e2 && v1 == v2 && h1 == h2
  {
    var p, q := [e1, Ascii(IntText(v1)), h1], [e2, Ascii(IntText(v2)), h2];
    SameFrames(8, p, q, OPERATION_TAG);
    assert p[0] == q[0] && p[1] == q[1] && p[2] == q[2];
    SeedTextInjective(v1, v2);
  }

  /** Reads exception, version text and instruction hash back, in that order, after the tag. */
  function DecodeOperation(s: seq<Byte>): Option<(seq<Byte>, seq<Byte>, seq<Byte>)> {
    if |s| < |OPERATION_TAG| then None
    else
      match ReadFrame(8, s[|OPERATION_TAG|..])
      case None => None
      case Some((exceptionId, afterException)) =>
        match ReadFrame(8, afterException)
        case None => None
        case Some((version, afterVersion)) =>
          match ReadFrame(8, afterVersion)
          case None => None
          case Some((payloadHash, rest)) =>
            if rest == [] then Some((exceptionId, version, payloadHash)) else None
  }

  lemma ThreeFrames(width: nat, a: seq<Byte>, b: seq<Byte>, c: seq<Byte>)
    requires Fits(width, a) && Fits(width, b) && Fits(width, c)
    ensures Frames(width, [a, b, c]) == Frame(width, a) + (Frame(width, b) + (Frame(width, c) + []))
  {
    assert [a, b, c][1..] == [b, c] && [b, c][1..] == [c] && [c][1..] == [];
    assert Frames(width, [c]) == Frame(width, c) + [];
    assert Frames(width, [b, c]) == Frame(width, b) + Frames(width, [c]);
  }

  lemma DropTag(tag: seq<Byte>, body: seq<Byte>)
    ensures (tag + body)[|tag|..] == body
  {}

  /** The idempotency key's bytes, read from the front: the tag, the exception, the version, the hash. It has
      bytes exactly for a version of at least one and a well-formed hash that fit their prefixes. */
  lemma DecodeOperationOfStream(exceptionId: seq<Byte>, version: int, payloadHash: seq<Byte>)
    ensures OperationStream(exceptionId, version, payloadHash).Some? <==>
            && version >= 1 && IsSha256HexBytes(payloadHash) && Fits(8, exceptionId)
            && Fits(8, Ascii(IntText(version))) && Fits(8, payloadHash)
    ensures OperationStream(exceptionId, version, payloadHash).Some? ==>
              var s := OperationStream(exceptionId, version, payloadHash).value;
              && OPERATION_TAG <= s
              && DecodeOperation(s) == Some((exceptionId, Ascii(IntText(version)), payloadHash))
  {
    var a, b, c := exceptionId, Ascii(IntText(version)), payloadHash;
    if Fits(8, a) && Fits(8, b) && Fits(8, c) {
      ThreeFrames(8, a, b, c);
      DropTag(OPERATION_TAG, Frames(8, [a, b, c]));
      ReadFrameOfFrame(8, a, Frame(8, b) + (Frame(8, c) + []));
      ReadFrameOfFrame(8, b, Frame(8, c) + []);
      ReadFrameOfFrame(8, c, []);
    }
  }

  lemma SameFrames(width: nat, p: seq<seq<Byte>>, q: seq<seq<Byte>>, tag: seq<Byte>)
    requires AllFit(width, p) && AllFit(width, q) && |p| == |q|
    requires tag + Frames(width, p) == tag + Frames(width, q)
    ensures p == q
  {
    assert (tag + Frames(width, p))[|tag|..] == Frames(width, p);
    assert (tag + Frames(width, q))[|tag|..] == Frames(width, q);
    ReadFramesOfFrames(width, p, []);
    ReadFramesOfFrames(width, q, []);
    assert Frames(width, p) + [] == Frames(width, p) && Frames(width, q) + [] == Frames(width, q);
  }

  /** Labels and values alternate in the instruction stream, each framed. */
  function InstructionStream(parts: seq<seq<Byte>>): Option<seq<Byte>> {
    if AllFit(8, parts) then Some(INSTRUCTION_TAG + Frames(8, parts)) else None
  }

  /** After the tag an instruction's stream reads back as its labels and values, in order. */
  lemma DecodeInstruction(parts: seq<seq<Byte>>)
    requires InstructionStream(parts).Some?
    ensures var s := InstructionStream(parts).value;
            && INSTRUCTION_TAG <= s
            && ReadFrames(8, |parts|, s[|INSTRUCTION_TAG|..]) == Some((parts, []))
  {
    DropTag(INSTRUCTION_TAG, Frames(8, parts));
    ReadFramesOfFrames(8, parts, []);
    assert Frames(8, parts) + [] == Frames(8, parts);
  }

  /** Domain separation: a fixture draw, an operation identifier and an instruction digest are never
      hashes of the same bytes. */
  lemma TagsSeparate(x: seq<Byte>, y: seq<Byte>, z: seq<Byte>)
    ensures FIXTURES_TAG + x != OPERATION_TAG + y
    ensures FIXTURES_TAG + x != INSTRUCTION_TAG + z
    ensures OPERATION_TAG + y != INSTRUCTION_TAG + z
  {
    assert (FIXTURES_TAG + x)[5] == 'f' as int;
    assert (OPERATION_TAG + y)[5] == 'o' as int;
    assert (INSTRUCTION_TAG + z)[5] == 'i' as int;
  }

  lemma StreamsNeverCoincide(domain: seq<Byte>, seed: int, labelText: seq<Byte>,
                             e: seq<Byte>, v: int, h: seq<Byte>, parts: seq<seq<Byte>>)
    requires DrawStream(domain, seed, labelText).Some? && OperationStream(e, v, h).Some?
    requires InstructionStream(parts).Some?
    ensures DrawStream(domain, seed, labelText) != OperationStream(e, v, h)
    ensures DrawStream(domain, seed, labelText) != InstructionStream(parts)
    ensures OperationStream(e, v, h) != InstructionStream(parts)
  {
    TagsSeparate(Frames(4, [domain, Ascii(IntText(seed)), labelText]),
                 Frames(8, [e, Ascii(IntText(v)), h]), Frames(8, parts));
  }
}
