/**
 Protected configuration values: padding to whole cipher blocks, the "$version$iv$data"
 message and its legacy form, and reading either back.  The cipher and base64 are
 parameters, known only to undo their own inverses.
 */
module Framing {
  import opened Common
  import opened Strtok

  const SEP: char := '$'
  const AES_BLK: nat := 16
  const KEY_BYTES: nat := 32
  const SHORT_SIZES: nat := 0x1_0000
  const ULONG_SIZES: nat := 0x1_0000_0000_0000_0000

  const PROTECT_ID_UNDEFINED: nat := 0
  const PROTECT_AES_CBC_NO_IV: nat := 1
  const PROTECT_AES_CBC: nat := 2
  const PROTECT_ID_LATEST: nat := PROTECT_AES_CBC

  type Bytes = seq<bv8>

  // ---- numbers ----

  predicate IsDigit(c: char) {
    '0' <= c <= '9'
  }

  function DigitValue(c: char): nat
    requires IsDigit(c)
  {
    (c as int) - ('0' as int)
  }

  function Digit(n: nat): (c: char)
    requires n < 10
    ensures IsDigit(c) && DigitValue(c) == n
  {
    (('0' as int) + n) as char
  }

  /** "%d" of a version. */
  function Print(n: nat): (s: string)
    ensures s != "" && forall i :: 0 <= i < |s| ==> IsDigit(s[i])
  {
    if n < 10 then [Digit(n)] else Print(n / 10) + [Digit(n % 10)]
  }

  /** The digits at the front of a string. */
  function DigitRun(s: string): (n: nat)
    ensures n <= |s| && forall i :: 0 <= i < n ==> IsDigit(s[i])
  {
    if s == "" || !IsDigit(s[0]) then 0 else 1 + DigitRun(s[1..])
  }

  function ValueOf(digits: string): nat
    requires forall i :: 0 <= i < |digits| ==> IsDigit(digits[i])
  {
    if digits == "" then 0
    else 10 * ValueOf(digits[..|digits| - 1]) + DigitValue(digits[|digits| - 1])
  }

  predicate IsSpace(c: char) {
    c == ' ' || '\t' <= c <= '\r'
  }

  /** strtoul in base 10, or nothing when it reports a range error. */
  function Strtoul(s: string): Option<nat> {
    if s != "" && IsSpace(s[0]) then Strtoul(s[1..])
    else
      var negative := s != "" && s[0] == '-';
      var rest := if s != "" && (s[0] == '-' || s[0] == '+') then s[1..] else s;
      var v := ValueOf(rest[..DigitRun(rest)]);
      if v >= ULONG_SIZES then None
      else if negative && v > 0 then Some(ULONG_SIZES - v)
      else Some(v)
  }

  lemma {:induction false} DigitRunAll(s: string)
    requires forall i :: 0 <= i < |s| ==> IsDigit(s[i])
    ensures DigitRun(s) == |s|
    decreases |s|
  {
    if s == "" {
    } else {
      DigitRunAll(s[1..]);
    }
  }

  lemma {:induction false} ValueOfPrint(n: nat)
    ensures ValueOf(Print(n)) == n
  {
    if n >= 10 {
      ValueOfPrint(n / 10);
      assert Print(n)[..|Print(n)| - 1] == Print(n / 10);
    }
  }

  /** Reading a printed number gives it back. */
  lemma StrtoulOfPrint(n: nat)
    requires n < ULONG_SIZES
    ensures Strtoul(Print(n)) == Some(n)
  {
    var s := Print(n);
    assert IsDigit(s[0]);
    DigitRunAll(s);
    assert s[..|s|] == s;
    ValueOfPrint(n);
  }

  // ---- the message ----

  datatype Parts = Parts(version: nat, iv: string, data: string)

  function Format(p: Parts): string {
    [SEP] + Print(p.version) + [SEP] + p.iv + [SEP] + p.data
  }

  predicate ValidVersion(token: string) {
    Strtoul(token).Some? && Strtoul(token).value <= 255
  }

  /** extractParts: exactly three tokens, the first of them a version. */
  function Extract(msg: string): Option<Parts> {
    var ts := Tokens(msg, SEP);
    if |ts| == 3 && ValidVersion(ts[0]) then Some(Parts(Strtoul(ts[0]).value, ts[1], ts[2])) else None
  }

  lemma FormatIsJoin(p: Parts)
    ensures Format(p) == [SEP] + Join([Print(p.version), p.iv, p.data], SEP)
  {
    var ts := [Print(p.version), p.iv, p.data];
    assert ts[1..] == [p.iv, p.data] && [p.iv, p.data][1..] == [p.data];
    assert Join([p.iv, p.data], SEP) == p.iv + [SEP] + p.data;
  }

  lemma FormatTokens(p: Parts)
    requires IsToken(p.iv, SEP) && IsToken(p.data, SEP)
    ensures Tokens(Format(p), SEP) == [Print(p.version), p.iv, p.data]
  {
    var ts := [Print(p.version), p.iv, p.data];
    FormatIsJoin(p);
    TokensSkip(Join(ts, SEP), SEP);
    TokensOfJoin(ts, SEP);
  }

  /** Extraction undoes formatting. */
  lemma ExtractOfFormat(p: Parts)
    requires p.version <= 255 && IsToken(p.iv, SEP) && IsToken(p.data, SEP)
    ensures Extract(Format(p)) == Some(p)
  {
    FormatTokens(p);
    StrtoulOfPrint(p.version);
  }

  /** A legacy value, which has no separator, is never taken for a message. */
  lemma LegacyNotExtracted(msg: string)
    requires SEP !in msg
    ensures Extract(msg) == None
  {
    TokensWithout(msg, SEP);
  }

  // ---- padding ----

  /** The length in whole blocks. */
  function PadLength(n: nat): nat {
    (n + AES_BLK - 1) / AES_BLK * AES_BLK
  }

  /** Clearing the low bits, as the code does it, is the same rounding down. */
  lemma MaskIsWholeBlocks(x: bv32)
    ensures x & 0xFFFF_FFF0 == x / 16 * 16
  {
  }

  /** It is the least multiple of the block size that holds the data. */
  lemma PadLengthLeast(n: nat, m: nat)
    ensures PadLength(n) % AES_BLK == 0 && n <= PadLength(n) < n + AES_BLK
    ensures m % AES_BLK == 0 && m >= n ==> PadLength(n) <= m
  {
  }

  function Zeros(n: nat): Bytes {
    seq(n, _ => 0)
  }

  function Padded(data: Bytes): (r: Bytes)
    ensures |r| == PadLength(|data|)
  {
    PadLengthLeast(|data|, 0);
    data + Zeros(PadLength(|data|) - |data|)
  }

  /** Dropping the zero bytes at the end. */
  function Trim(data: Bytes): Bytes {
    if data != [] && data[|data| - 1] == 0 then Trim(data[..|data| - 1]) else data
  }

  predicate EndsInZero(data: Bytes) {
    data != [] && data[|data| - 1] == 0
  }

  lemma {:induction false} TrimZeros(data: Bytes, n: nat)
    ensures Trim(data + Zeros(n)) == Trim(data)
    decreases n
  {
    if n == 0 {
      assert data + Zeros(0) == data;
    } else {
      assert (data + Zeros(n))[..|data| + n - 1] == data + Zeros(n - 1);
      TrimZeros(data, n - 1);
    }
  }

  lemma {:induction false} TrimShortens(data: Bytes)
    ensures |Trim(data)| <= |data| && !EndsInZero(Trim(data))
    ensures Trim(data) == data <==> !EndsInZero(data)
    decreases |data|
  {
    if EndsInZero(data) {
      TrimShortens(data[..|data| - 1]);
    }
  }

  /** Padding is undone by the trim exactly for data that does not end in a zero byte. */
  lemma TrimOfPaddedIff(data: Bytes)
    ensures Trim(Padded(data)) == data <==> !EndsInZero(data)
  {
    TrimZeros(data, PadLength(|data|) - |data|);
    TrimShortens(data);
  }

  // ---- protecting and reading back ----

  datatype Crypto = Crypto(
    encrypt: (Bytes, Bytes, Bytes) -> Bytes,
    decrypt: (Bytes, Bytes, Bytes) -> Bytes,
    encode: Bytes -> string,
    decode: string -> Option<Bytes>)

  /** The cipher undoes itself block for block, and base64 text decodes to its bytes and holds no separator. */
  ghost predicate Sound(c: Crypto) {
    && (forall key, iv, x :: |c.encrypt(key, iv, x)| == |x|)
    && (forall key, iv, x :: |c.decrypt(key, iv, x)| == |x|)
    && (forall key, iv, x :: |x| % AES_BLK == 0 ==> c.decrypt(key, iv, c.encrypt(key, iv, x)) == x)
    && (forall x :: x != [] ==> c.decode(c.encode(x)) == Some(x))
    && (forall x :: x != [] ==> IsToken(c.encode(x), SEP))
  }

  /** icEncodeBase64 with its 16-bit length: nothing for a length of zero. */
  function EncodeShort(c: Crypto, x: Bytes): Option<string> {
    var n := |x| % SHORT_SIZES;
    if n == 0 then None else Some(c.encode(x[..n]))
  }

  /** protectConfigData with the version in use and the random vector it drew. */
  function Protect(c: Crypto, version: nat, key: Bytes, random: Bytes, data: Bytes): Option<string> {
    if |key| != KEY_BYTES then None
    else
      var iv := if version > PROTECT_AES_CBC_NO_IV then random else Zeros(AES_BLK);
      match EncodeShort(c, c.encrypt(key, iv, Padded(data)))
      case None => None
      case Some(text) =>
        match EncodeShort(c, iv)
        case None => None
        case Some(ivText) =>
          if version > PROTECT_AES_CBC_NO_IV then Some(Format(Parts(version, ivText, text))) else Some(text)
  }

  datatype Read = Value(data: Bytes) | Failed | NotWholeBlocks

  /** The end of unprotectConfigData, once the vector and the text are known. */
  function Open(c: Crypto, key: Bytes, iv: Bytes, text: string): Read {
    match c.decode(text)
    case None => Failed
    case Some(input) =>
      if |key| != KEY_BYTES then Failed
      else
        var n := |input| % SHORT_SIZES;
        if n % AES_BLK != 0 then NotWholeBlocks
        else Value(Trim(c.decrypt(key, iv, input[..n])))
  }

  /** unprotectConfigData; what is not a message is decoded as extractParts left it, cut after its first token. */
  function Unprotect(c: Crypto, key: Bytes, msg: string): Read {
    match Extract(msg)
    case None => Open(c, key, Zeros(AES_BLK), Cut(msg, SEP))
    case Some(parts) =>
      match c.decode(parts.iv)
      case None => Failed
      case Some(iv) => if |iv| % SHORT_SIZES != AES_BLK then Failed else Open(c, key, iv[..AES_BLK], parts.data)
  }

  /** The text opens to what the cipher makes of its bytes. */
  lemma OpensText(c: Crypto, key: Bytes, iv: Bytes, y: Bytes)
    requires Sound(c) && |key| == KEY_BYTES && 0 < |y| < SHORT_SIZES && |y| % AES_BLK == 0
    ensures IsToken(c.encode(y), SEP) && Open(c, key, iv, c.encode(y)) == Value(Trim(c.decrypt(key, iv, y)))
  {
    assert y != [] && c.decode(c.encode(y)) == Some(y);
    assert y[..|y|] == y;
  }

  /** A padded length that fits 16 bits: the padded data is read back. */
  lemma OpensAgain(c: Crypto, key: Bytes, iv: Bytes, data: Bytes)
    requires Sound(c) && |key| == KEY_BYTES && 0 < PadLength(|data|) < SHORT_SIZES
    ensures var text := EncodeShort(c, c.encrypt(key, iv, Padded(data)));
            text.Some? && IsToken(text.value, SEP) && Open(c, key, iv, text.value) == Value(Trim(Padded(data)))
  {
    var x := c.encrypt(key, iv, Padded(data));
    PadLengthLeast(|data|, 0);
    assert |x| == PadLength(|data|) && x[..|x|] == x;
    OpensText(c, key, iv, x);
  }

  /** A larger one: nothing is written, or something shorter is read back. */
  lemma OpensShorter(c: Crypto, key: Bytes, iv: Bytes, data: Bytes)
    requires Sound(c) && |key| == KEY_BYTES && PadLength(|data|) >= SHORT_SIZES
    ensures var text := EncodeShort(c, c.encrypt(key, iv, Padded(data)));
            text.Some? ==>
              && IsToken(text.value, SEP) && Open(c, key, iv, text.value).Value?
              && |Open(c, key, iv, text.value).data| < |data|
  {
    var x := c.encrypt(key, iv, Padded(data));
    var n := |x| % SHORT_SIZES;
    PadLengthLeast(|data|, 0);
    assert |x| == PadLength(|data|);
    if n > 0 {
      BlocksLeft(|x|);
      OpensText(c, key, iv, x[..n]);
      TrimShortens(c.decrypt(key, iv, x[..n]));
    }
  }

  lemma BlocksLeft(n: nat)
    requires n % AES_BLK == 0
    ensures n % SHORT_SIZES % AES_BLK == 0
    ensures n >= SHORT_SIZES && n % SHORT_SIZES > 0 ==> n >= SHORT_SIZES + AES_BLK
  {
  }

  /** Unprotecting finds again the vector and the text that were framed, in either format. */
  lemma UnprotectOfFrame(c: Crypto, version: nat, key: Bytes, iv: Bytes, text: string)
    requires Sound(c) && version <= 255 && |iv| == AES_BLK && IsToken(text, SEP)
    requires version <= PROTECT_AES_CBC_NO_IV ==> iv == Zeros(AES_BLK)
    ensures var msg := if version > PROTECT_AES_CBC_NO_IV then Format(Parts(version, c.encode(iv), text)) else text;
            Unprotect(c, key, msg) == Open(c, key, iv, text)
  {
    if version > PROTECT_AES_CBC_NO_IV {
      assert IsToken(c.encode(iv), SEP);
      ExtractOfFormat(Parts(version, c.encode(iv), text));
      assert c.decode(c.encode(iv)) == Some(iv) && iv[..AES_BLK] == iv;
    } else {
      LegacyNotExtracted(text);
      CutWithout(text, SEP);
    }
  }

  /** A value that is not a message is read as if it ended with its first token. */
  lemma RestIgnored(c: Crypto, key: Bytes, msg: string)
    requires Extract(msg).None?
    ensures Unprotect(c, key, msg) == Unprotect(c, key, Cut(msg, SEP))
  {
    CutTokens(msg, SEP);
    CutTwice(msg, SEP);
  }

  /**
   Unprotecting what was protected gives the data back exactly when it is not empty, does
   not end in a zero byte and its padded length fits 16 bits; in every version.
   */
  lemma RoundTripIff(c: Crypto, version: nat, key: Bytes, random: Bytes, data: Bytes)
    requires Sound(c) && version <= PROTECT_ID_LATEST && |key| == KEY_BYTES && |random| == AES_BLK
    ensures var msg := Protect(c, version, key, random, data);
            msg.Some? && Unprotect(c, key, msg.value) == Value(data)
            <==> data != [] && !EndsInZero(data) && PadLength(|data|) < SHORT_SIZES
  {
    var iv := if version > PROTECT_AES_CBC_NO_IV then random else Zeros(AES_BLK);
    assert iv[..AES_BLK] == iv && EncodeShort(c, iv) == Some(c.encode(iv));
    var text := EncodeShort(c, c.encrypt(key, iv, Padded(data)));
    PadLengthLeast(|data|, 0);
    if PadLength(|data|) >= SHORT_SIZES {
      OpensShorter(c, key, iv, data);
    } else if data != [] {
      OpensAgain(c, key, iv, data);
      TrimOfPaddedIff(data);
    }
    if text.Some? && data != [] {
      UnprotectOfFrame(c, version, key, iv, text.value);
    }
  }

  /** Nothing is written for the empty value. */
  lemma EmptyNotProtected(c: Crypto, version: nat, key: Bytes, random: Bytes)
    requires Sound(c)
    ensures Protect(c, version, key, random, []) == None
  {
  }

  /** A message in the current format carries the version in use and the vector that was drawn; a legacy one is the bare text. */
  lemma FrameCarries(c: Crypto, version: nat, key: Bytes, random: Bytes, data: Bytes)
    requires Sound(c) && version <= PROTECT_ID_LATEST && |random| == AES_BLK
    ensures var msg := Protect(c, version, key, random, data);
            && (msg.Some? ==> |key| == 32)
            && (msg.Some? && version == 2 ==>
                  Extract(msg.value).Some? && Extract(msg.value).value.version == 2
                  && c.decode(Extract(msg.value).value.iv) == Some(random))
            && (msg.Some? && version < 2 ==> '$' !in msg.value)
  {
    var msg := Protect(c, version, key, random, data);
    if msg.Some? {
      var iv := if version > PROTECT_AES_CBC_NO_IV then random else Zeros(AES_BLK);
      assert iv[..AES_BLK] == iv && EncodeShort(c, iv) == Some(c.encode(iv));
      var x := c.encrypt(key, iv, Padded(data));
      var text := EncodeShort(c, x);
      assert IsToken(text.value, SEP) by {
        assert x[..|x| % SHORT_SIZES] != [];
      }
      if version == 2 {
        assert IsToken(c.encode(iv), SEP);
        ExtractOfFormat(Parts(version, c.encode(iv), text.value));
        assert c.decode(c.encode(iv)) == Some(iv);
      }
    }
  }

  /** Any other key length is refused, for writing and for a text that decodes. */
  lemma KeyLengthChecked(c: Crypto, version: nat, key: Bytes, random: Bytes, data: Bytes, msg: string)
    requires |key| != 32
    ensures Protect(c, version, key, random, data).None? && !Unprotect(c, key, msg).Value?
  {
  }

  /** A vector that is not sixteen bytes long is refused. */
  lemma VectorChecked(c: Crypto, key: Bytes, p: Parts)
    requires p.version <= 255 && IsToken(p.iv, SEP) && IsToken(p.data, SEP)
    requires c.decode(p.iv).None? || (|c.decode(p.iv).value| < SHORT_SIZES && |c.decode(p.iv).value| != 16)
    ensures Unprotect(c, key, Format(p)) == Failed
  {
    ExtractOfFormat(p);
  }

  // ---- what passes for a version ----

  /** A number after any spaces and an optional sign is read up to its last digit; a negative one wraps, and one past 64 bits is an error. */
  lemma StrtoulReads(spaces: string, sign: string, n: nat, rest: string)
    requires forall i :: 0 <= i < |spaces| ==> IsSpace(spaces[i])
    requires sign == "" || sign == "+" || sign == "-"
    requires rest == "" || !IsDigit(rest[0])
    ensures Strtoul(spaces + sign + Print(n) + rest) ==
            if n >= 0x1_0000_0000_0000_0000 then None
            else if sign == "-" && n > 0 then Some(0x1_0000_0000_0000_0000 - n)
            else Some(n)
  {
    assert spaces + sign + Print(n) + rest == spaces + (sign + (Print(n) + rest));
    SpacesSkipped(spaces, sign + (Print(n) + rest));
    ReadsNumber(n, rest);
    SignRead(sign, Print(n) + rest);
  }

  lemma {:induction false} SpacesSkipped(spaces: string, s: string)
    requires forall i :: 0 <= i < |spaces| ==> IsSpace(spaces[i])
    ensures Strtoul(spaces + s) == Strtoul(s)
    decreases |spaces|
  {
    if spaces == "" {
      assert spaces + s == s;
    } else {
      assert (spaces + s)[1..] == spaces[1..] + s;
      SpacesSkipped(spaces[1..], s);
    }
  }

  lemma SignRead(sign: string, number: string)
    requires sign == "" || sign == "+" || sign == "-"
    requires number != "" && IsDigit(number[0])
    ensures Strtoul(sign + number) ==
            var v := ValueOf(number[..DigitRun(number)]);
            if v >= ULONG_SIZES then None else if sign == "-" && v > 0 then Some(ULONG_SIZES - v) else Some(v)
  {
    var s := sign + number;
    if sign == "" {
      assert s == number;
    } else {
      assert s[0] == sign[0] && s[1..] == number;
    }
  }

  lemma ReadsNumber(n: nat, rest: string)
    requires rest == "" || !IsDigit(rest[0])
    ensures var s := Print(n) + rest; DigitRun(s) == |Print(n)| && ValueOf(s[..DigitRun(s)]) == n
  {
    DigitRunStops(Print(n), rest);
    assert (Print(n) + rest)[..|Print(n)|] == Print(n);
    ValueOfPrint(n);
  }

  lemma {:induction false} DigitRunStops(digits: string, rest: string)
    requires forall i :: 0 <= i < |digits| ==> IsDigit(digits[i])
    requires rest == "" || !IsDigit(rest[0])
    ensures DigitRun(digits + rest) == |digits|
    decreases |digits|
  {
    if digits == "" {
      assert digits + rest == rest;
    } else {
      assert (digits + rest)[1..] == digits[1..] + rest;
      DigitRunStops(digits[1..], rest);
    }
  }

  /** A string is a message exactly if it has three parts and the first is read as a number up to 255. */
  lemma MessageIff(ts: seq<string>)
    requires forall i :: 0 <= i < |ts| ==> IsToken(ts[i], SEP)
    ensures Extract(Join(ts, SEP)).Some? <==> |ts| == 3 && Strtoul(ts[0]).Some? && Strtoul(ts[0]).value <= 255
    ensures Extract(Join(ts, SEP)).Some? ==>
              Extract(Join(ts, SEP)).value == Parts(Strtoul(ts[0]).value, ts[1], ts[2])
  {
    TokensOfJoin(ts, SEP);
  }

  // ---- the version in use ----

  datatype Session = Session(version: nat, wasSet: bool)

  datatype Op = Force(toVersion: nat, downgrade: bool) | ReadValue(msg: string)

  function NewSession(): Session {
    Session(PROTECT_AES_CBC, false)
  }

  predicate Forces(s: Session, op: Op) {
    op.Force? && op.toVersion <= PROTECT_ID_LATEST && (op.toVersion >= s.version || op.downgrade)
  }

  predicate ReadsLegacy(op: Op) {
    op.ReadValue? && Extract(op.msg).None?
  }

  function Step(s: Session, op: Op): Session {
    if Forces(s, op) then Session(op.toVersion, true)
    else if ReadsLegacy(op) && !s.wasSet then Session(PROTECT_AES_CBC_NO_IV, false)
    else s
  }

  /** A force sets exactly the version asked for if that exists and is not lower, or a downgrade is asked for; otherwise it does nothing. */
  lemma ForceSets(s: Session, toVersion: nat, downgrade: bool)
    ensures Step(s, Force(toVersion, downgrade)) ==
            if toVersion <= 2 && (toVersion >= s.version || downgrade) then Session(toVersion, true) else s
  {
  }

  function After(s: Session, ops: seq<Op>): Session
    decreases |ops|
  {
    if ops == [] then s else After(Step(s, ops[0]), ops[1..])
  }

  /** Until a version is forced, new values are written in the legacy format exactly when a legacy value was read. */
  lemma {:induction false} UnforcedVersion(s: Session, ops: seq<Op>)
    requires !s.wasSet && !After(s, ops).wasSet
    ensures After(s, ops).version ==
            if exists i :: 0 <= i < |ops| && ReadsLegacy(ops[i]) then PROTECT_AES_CBC_NO_IV else s.version
    decreases |ops|
  {
    if ops == [] {
    } else {
      var m := Step(s, ops[0]);
      if m.wasSet {
        StaysSet(m, ops[1..]);
        assert false;
      }
      UnforcedVersion(m, ops[1..]);
      if i :| 0 <= i < |ops| && ReadsLegacy(ops[i]) {
        if i > 0 {
          assert ReadsLegacy(ops[1..][i - 1]);
        }
      }
      if j :| 0 <= j < |ops[1..]| && ReadsLegacy(ops[1..][j]) {
        assert ReadsLegacy(ops[j + 1]);
      }
    }
  }

  lemma {:induction false} StaysSet(s: Session, ops: seq<Op>)
    requires s.wasSet
    ensures After(s, ops).wasSet
    decreases |ops|
  {
    if ops == [] {
    } else {
      StaysSet(Step(s, ops[0]), ops[1..]);
    }
  }

  /** Once forced, reading never changes the version, and it only goes down when a downgrade is asked for. */
  lemma {:induction false} ForcedVersion(s: Session, ops: seq<Op>)
    requires s.wasSet
    ensures (forall i :: 0 <= i < |ops| ==> ops[i].ReadValue?) ==> After(s, ops) == s
    ensures (forall i :: 0 <= i < |ops| ==> ops[i].ReadValue? || !ops[i].downgrade) ==> After(s, ops).version >= s.version
    ensures s.version <= PROTECT_ID_LATEST ==> After(s, ops).version <= PROTECT_ID_LATEST
    decreases |ops|
  {
    if ops == [] {
    } else {
      ForcedVersion(Step(s, ops[0]), ops[1..]);
    }
  }
}

/** The framing in its own form: buffers filled and cut step by step, and the module's version state. */
module FramingObject {
  import opened Common
  import opened Strtok
  import opened Framing

  /** What extractParts has stored after some tokens. */
  ghost predicate Stored(seen: seq<string>, p: Parts) {
    && |seen| <= 3
    && (|seen| > 0 ==> ValidVersion(seen[0]) && p.version == Strtoul(seen[0]).value)
    && (|seen| > 1 ==> p.iv == seen[1])
    && (|seen| > 2 ==> p.data == seen[2])
  }

  /** One turn of its loop; nothing when the message is not valid. */
  method Store(p: Parts, i: nat, token: string, ghost seen: seq<string>) returns (r: Option<Parts>)
    requires i == |seen| && Stored(seen, p)
    ensures r.Some? ==> Stored(seen + [token], r.value)
    ensures r.None? <==> (i == 0 && !ValidVersion(token)) || i == 3
  {
    if i == 0 {
      var v := Strtoul(token);
      return if v.Some? && v.value <= 255 then Some(p.(version := v.value)) else None;
    } else if i == 1 {
      return Some(p.(iv := token));
    } else if i == 2 {
      return Some(p.(data := token));
    }
    return None;
  }

  /** extractParts, token by token; `left` is what the first of them leaves of the buffer. */
  method ExtractParts(msg: string) returns (r: Option<Parts>, left: string)
    ensures r == Extract(msg) && left == Cut(msg, SEP)
  {
    var p := Parts(PROTECT_ID_UNDEFINED, "", "");
    var i := 0;
    ghost var seen: seq<string> := [];
    var token, next: nat;
    token, next, left := FirstToken(msg, SEP);
    ghost var rest := if token.None? then [] else Tokens(msg[next..], SEP);
    while token.Some?
      invariant i == |seen| && Stored(seen, p) && next <= |msg|
      invariant token.Some? ==> rest == Tokens(msg[next..], SEP)
      invariant Tokens(msg, SEP) == if token.None? then seen else seen + [token.value] + rest
      decreases |msg| - next, token.Some?
    {
      var stored := Store(p, i, token.value, seen);
      if stored.None? {
        assert Tokens(msg, SEP)[i] == token.value;
        return None, left;
      }
      p, i := stored.value, i + 1;
      seen := seen + [token.value];
      token, next := NextToken(msg, next, SEP);
      rest := if token.None? then [] else Tokens(msg[next..], SEP);
    }
    r := if i == 3 then Some(p) else None;
  }

  /** The input block: a zeroed buffer with the data copied to its front. */
  method PadBlock(data: Bytes) returns (block: array<bv8>)
    ensures fresh(block) && block[..] == Padded(data)
  {
    PadLengthLeast(|data|, 0);
    block := new bv8[PadLength(|data|)](_ => 0);
    for i := 0 to |data|
      invariant forall j :: 0 <= j < i ==> block[j] == data[j]
      invariant forall j :: i <= j < block.Length ==> block[j] == 0
    {
      block[i] := data[i];
    }
    assert forall j :: 0 <= j < block.Length ==> block[j] == Padded(data)[j];
  }

  /** The loop over trailing zero bytes. */
  method TrimBlock(block: array<bv8>) returns (length: nat)
    ensures length <= block.Length && block[..length] == Trim(block[..])
  {
    length := block.Length;
    assert block[..length] == block[..];
    while length > 0 && block[length - 1] == 0
      invariant length <= block.Length && Trim(block[..length]) == Trim(block[..])
    {
      assert block[..length][..length - 1] == block[..length - 1];
      length := length - 1;
    }
  }

  /** The end of unprotectConfigData: decode, decrypt into a buffer, cut off the padding. */
  method OpenText(c: Crypto, key: Bytes, iv: Bytes, text: string) returns (r: Read)
    requires forall k, v, x :: |c.decrypt(k, v, x)| == |x|
    ensures r == Open(c, key, iv, text)
  {
    var input := c.decode(text);
    if input.None? || |key| != KEY_BYTES {
      return Failed;
    }
    var n := |input.value| % SHORT_SIZES;
    if n % AES_BLK != 0 {
      return NotWholeBlocks;
    }
    var plain := c.decrypt(key, iv, input.value[..n]);
    var buffer := new bv8[n](i requires 0 <= i < n => plain[i]);
    assert buffer[..] == plain;
    var length := TrimBlock(buffer);
    return Value(buffer[..length]);
  }

  class ProtectSession {
    var version: nat
    var wasSet: bool

    ghost function View(): Session
      reads this
    {
      Session(version, wasSet)
    }

    constructor ()
      ensures View() == NewSession()
    {
      version, wasSet := PROTECT_AES_CBC, false;
    }

    /** forceProtectVersion */
    method ForceVersion(toVersion: nat, downgrade: bool) returns (forced: bool)
      modifies this
      ensures View() == Step(old(View()), Force(toVersion, downgrade))
      ensures forced <==> toVersion <= 2 && (toVersion >= old(version) || downgrade)
      ensures version == (if forced then toVersion else old(version)) && wasSet == (forced || old(wasSet))
    {
      forced := false;
      if toVersion > PROTECT_ID_LATEST {
      } else if toVersion < version && !downgrade {
      } else {
        version := toVersion;
        wasSet, forced := true, true;
      }
    }

    /** protectConfigData with the version in use. */
    method ProtectData(c: Crypto, key: Bytes, random: Bytes, data: Bytes) returns (msg: Option<string>)
      requires |random| == AES_BLK && version <= PROTECT_ID_LATEST
      ensures msg == Protect(c, version, key, random, data)
    {
      if |key| != KEY_BYTES {
        return None;
      }
      var iv := random;
      if version <= PROTECT_AES_CBC_NO_IV {
        iv := Zeros(AES_BLK);
      }
      var block := PadBlock(data);
      var text := EncodeShort(c, c.encrypt(key, iv, block[..]));
      var ivText := EncodeShort(c, iv);
      if text.None? || ivText.None? {
        return None;
      }
      if version > PROTECT_AES_CBC_NO_IV {
        return Some([SEP] + Print(version) + [SEP] + ivText.value + [SEP] + text.value);
      }
      return text;
    }

    /** unprotectConfigData */
    method UnprotectData(c: Crypto, key: Bytes, msg: string) returns (r: Read)
      requires forall k, v, x :: |c.decrypt(k, v, x)| == |x|
      modifies this
      ensures r == Unprotect(c, key, msg)
      ensures View() == Step(old(View()), ReadValue(msg))
    {
      var parts, left := ExtractParts(msg);
      if parts.None? {
        if !wasSet {
          version := PROTECT_AES_CBC_NO_IV;
        }
        r := OpenText(c, key, Zeros(AES_BLK), left);
        return;
      }
      var iv := c.decode(parts.value.iv);
      if iv.None? || |iv.value| % SHORT_SIZES != AES_BLK {
        return Failed;
      }
      r := OpenText(c, key, iv.value[..AES_BLK], parts.value.data);
    }
  }
}
