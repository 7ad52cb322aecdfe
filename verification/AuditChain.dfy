/** The hash-chained audit log: append, reopen and verify over one file.

    The file is a sequence of lines, the hash an arbitrary function of bytes. Text is ASCII, one
    character a byte. */
module AuditChain {
  import opened Wrappers

  type Byte = b: nat | b < 256

  const ZEROS: seq<Byte> :=
    [0, 0, 0, 0, 0, 0, 0, 0, 0, 0, 0, 0, 0, 0, 0, 0, 0, 0, 0, 0, 0, 0, 0, 0, 0, 0, 0, 0, 0, 0, 0, 0]

  type Hash = h: seq<Byte> | |h| == 32 witness ZEROS

  const ZERO_HASH: Hash := ZEROS

  const TWO_TO_THE_64: nat := 0x1_0000_0000_0000_0000

  type U64 = n: nat | n < TWO_TO_THE_64

  // ---- hexadecimal ----

  function HexDigit(d: nat): char
    requires d < 16
  {
    "0123456789abcdef"[d]
  }

  function DigitValue(c: char): (d: Option<nat>)
    ensures d.Some? ==> d.value < 16
  {
    if '0' <= c <= '9' then Some(c as nat - '0' as nat)
    else if 'a' <= c <= 'f' then Some(c as nat - 'a' as nat + 10)
    else if 'A' <= c <= 'F' then Some(c as nat - 'A' as nat + 10)
    else None
  }

  /** Two characters read as one byte; a leading plus sign is accepted before a single digit. */
  function PairValue(high: char, low: char): Option<Byte> {
    match (DigitValue(high), DigitValue(low))
    case (Some(h), Some(l)) => Some(16 * h + l)
    case (None, Some(l)) => if high == '+' then Some(l) else None
    case (_, None) => None
  }

  function HexEncode(bytes: seq<Byte>): string {
    if bytes == [] then "" else [HexDigit(bytes[0] / 16), HexDigit(bytes[0] % 16)] + HexEncode(bytes[1..])
  }

  function HexDecode(s: string): Option<seq<Byte>> {
    if s == "" then Some([])
    else if |s| == 1 then None
    else
      match (PairValue(s[0], s[1]), HexDecode(s[2..]))
      case (Some(b), Some(rest)) => Some([b] + rest)
      case _ => None
  }

  function DecodeHash(s: string): Option<Hash> {
    match HexDecode(s)
    case Some(bytes) => if |bytes| == 32 then Some(bytes) else None
    case None => None
  }

  lemma DigitRoundTrip(d: nat)
    requires d < 16
    ensures DigitValue(HexDigit(d)) == Some(d)
  {
  }

  lemma PairRoundTrip(b: Byte)
    ensures PairValue(HexDigit(b / 16), HexDigit(b % 16)) == Some(b)
  {
    DigitRoundTrip(b / 16);
    DigitRoundTrip(b % 16);
  }

  lemma {:induction false} HexRoundTrip(bytes: seq<Byte>)
    ensures HexDecode(HexEncode(bytes)) == Some(bytes)
  {
    if bytes != [] {
      var s := HexEncode(bytes);
      PairRoundTrip(bytes[0]);
      HexRoundTrip(bytes[1..]);
      assert s[0] == HexDigit(bytes[0] / 16) && s[1] == HexDigit(bytes[0] % 16);
      assert s[2..] == HexEncode(bytes[1..]);
      assert bytes == [bytes[0]] + bytes[1..];
    }
  }

  /** Two lower-case digits for each byte. */
  lemma {:induction false} EncodedAt(bytes: seq<Byte>, i: nat)
    requires i < |bytes|
    ensures |HexEncode(bytes)| == 2 * |bytes|
    ensures HexEncode(bytes)[2 * i] == "0123456789abcdef"[bytes[i] / 16]
    ensures HexEncode(bytes)[2 * i + 1] == "0123456789abcdef"[bytes[i] % 16]
  {
    var s, rest := HexEncode(bytes), HexEncode(bytes[1..]);
    assert s[2..] == rest;
    if |bytes| > 1 { EncodedAt(bytes[1..], if i == 0 then 0 else i - 1); }
    if i > 0 { assert s[2 * i] == rest[2 * (i - 1)] && s[2 * i + 1] == rest[2 * (i - 1) + 1]; }
  }

  predicate IsHex(c: char) {
    '0' <= c <= '9' || 'a' <= c <= 'f' || 'A' <= c <= 'F'
  }

  /** Digits of either case, and nothing else, have a value, the same in both cases. */
  lemma DigitsExactly(c: char)
    ensures DigitValue(c).Some? <==> IsHex(c)
    ensures 'A' <= c <= 'F' ==> DigitValue(c) == DigitValue(c - 'A' + 'a')
  {
  }

  predicate ReadablePair(high: char, low: char) {
    (IsHex(high) || high == '+') && IsHex(low)
  }

  ghost predicate Readable(s: string) {
    |s| % 2 == 0 && forall i, j | 0 <= i < j < |s| && i % 2 == 0 && j == i + 1 :: ReadablePair(s[i], s[j])
  }

  lemma ReadableMore(s: string)
    requires |s| >= 2
    ensures Readable(s) <==> ReadablePair(s[0], s[1]) && Readable(s[2..])
  {
    var rest := s[2..];
    if ReadablePair(s[0], s[1]) && Readable(rest) {
      forall i, j | 0 <= i < j < |s| && i % 2 == 0 && j == i + 1 ensures ReadablePair(s[i], s[j]) {
        if i > 0 { assert rest[i - 2] == s[i] && rest[j - 2] == s[j]; }
      }
    }
    if Readable(s) {
      forall i, j | 0 <= i < j < |rest| && i % 2 == 0 && j == i + 1 ensures ReadablePair(rest[i], rest[j]) {
        assert rest[i] == s[i + 2] && rest[j] == s[j + 2];
      }
    }
  }

  /** What can be decoded: pairs of digits, a plus sign allowed for the first of a pair. */
  lemma {:induction false} DecodesExactly(s: string)
    ensures HexDecode(s).Some? <==> Readable(s)
  {
    if |s| >= 2 {
      DigitsExactly(s[0]);
      DigitsExactly(s[1]);
      DecodesExactly(s[2..]);
      ReadableMore(s);
    }
  }

  lemma {:induction false} DecodedLength(s: string)
    ensures HexDecode(s).Some? ==> |s| == 2 * |HexDecode(s).value|
  {
    if |s| > 1 { DecodedLength(s[2..]); }
  }

  // ---- entries ----

  datatype Entry = Entry(
    sequence: U64, timestamp: string, requestId: string, source: string, endpointId: string, verb: string,
    path: string, parametersHash: string, level: string, approvalId: Option<string>, status: string,
    resultHash: string, error: Option<string>, previousHash: string, entryHash: string)

  function LittleEndian(n: nat, width: nat): string {
    if width == 0 then "" else [(n % 256) as char] + LittleEndian(n / 256, width - 1)
  }

  function Optional(text: Option<string>): string {
    if text.Some? then text.value else ""
  }

  /** The fields in the order in which they are hashed, before the hash of the previous entry. */
  function Fields(e: Entry): seq<string> {
    [LittleEndian(e.sequence, 8), e.timestamp, e.requestId, e.source, e.endpointId, e.verb, e.path, e.parametersHash,
     e.level, Optional(e.approvalId), e.status, e.resultHash, Optional(e.error)]
  }

  function Concat(parts: seq<string>): string {
    if parts == [] then "" else parts[0] + Concat(parts[1..])
  }

  /** The fields are joined without lengths or separators. */
  function HashedBytes(e: Entry): string {
    Concat(Fields(e)) + e.previousHash
  }

  type Hasher = string -> Hash

  function Stored(e: Entry): Hash {
    match DecodeHash(e.entryHash) case Some(h) => h case None => ZERO_HASH
  }

  /** The entry points back to `previous` and its own hash is right. */
  predicate Linked(hash: Hasher, previous: Hash, e: Entry) {
    DecodeHash(e.previousHash) == Some(previous) && DecodeHash(e.entryHash) == Some(hash(HashedBytes(e)))
  }

  function PreviousOf(entries: seq<Entry>, i: nat): Hash
    requires i <= |entries|
  {
    if i == 0 then ZERO_HASH else Stored(entries[i - 1])
  }

  predicate LinkedAt(hash: Hasher, entries: seq<Entry>, i: nat)
    requires i < |entries|
  {
    Linked(hash, PreviousOf(entries, i), entries[i])
  }

  predicate Intact(hash: Hasher, entries: seq<Entry>) {
    forall i {:trigger LinkedAt(hash, entries, i)} | 0 <= i < |entries| :: LinkedAt(hash, entries, i)
  }

  function TailHash(entries: seq<Entry>): Hash {
    PreviousOf(entries, |entries|)
  }

  lemma IntactAppend(hash: Hasher, entries: seq<Entry>, e: Entry)
    ensures Intact(hash, entries + [e]) <==> Intact(hash, entries) && Linked(hash, TailHash(entries), e)
  {
    var longer := entries + [e];
    forall i: nat | i < |entries| ensures LinkedAt(hash, longer, i) == LinkedAt(hash, entries, i) {
    }
    assert LinkedAt(hash, longer, |entries|) == Linked(hash, TailHash(entries), e);
    if Intact(hash, entries) && Linked(hash, TailHash(entries), e) {
      forall i {:trigger LinkedAt(hash, longer, i)} | 0 <= i < |longer| ensures LinkedAt(hash, longer, i) {
        if i < |entries| { assert LinkedAt(hash, entries, i); }
      }
    }
  }

  // ---- the file ----

  datatype Line = Blank | Garbled | Written(entry: Entry)

  function EntriesOf(lines: seq<Line>): seq<Entry> {
    if lines == [] then []
    else
      var k := |lines| - 1;
      EntriesOf(lines[..k]) + if lines[k].Written? then [lines[k].entry] else []
  }

  predicate Clean(hash: Hasher, lines: seq<Line>) {
    Garbled !in lines && Intact(hash, EntriesOf(lines))
  }

  lemma LineAdded(hash: Hasher, lines: seq<Line>, n: nat)
    requires n < |lines|
    ensures EntriesOf(lines[..n + 1]) == EntriesOf(lines[..n]) + if lines[n].Written? then [lines[n].entry] else []
    ensures Clean(hash, lines[..n + 1])
       <==> Clean(hash, lines[..n]) && lines[n] != Garbled
            && (lines[n].Written? ==> Linked(hash, TailHash(EntriesOf(lines[..n])), lines[n].entry))
  {
    assert lines[..n + 1][..n] == lines[..n] && lines[..n + 1] == lines[..n] + [lines[n]];
    if lines[n].Written? {
      IntactAppend(hash, EntriesOf(lines[..n]), lines[n].entry);
    } else {
      assert EntriesOf(lines[..n + 1]) == EntriesOf(lines[..n]);
    }
  }

  /** Cutting lines off the end is not detected. */
  lemma {:induction false} PrefixIsClean(hash: Hasher, lines: seq<Line>, n: nat)
    requires Clean(hash, lines) && n <= |lines|
    ensures Clean(hash, lines[..n])
    decreases |lines| - n
  {
    if n < |lines| {
      PrefixIsClean(hash, lines, n + 1);
      LineAdded(hash, lines, n);
    } else {
      assert lines[..n] == lines;
    }
  }

  // ---- verification ----

  datatype Verification = Verification(valid: bool, entriesChecked: nat, lastSequence: U64)

  function LastSequence(entries: seq<Entry>): U64 {
    if entries == [] then 0 else entries[|entries| - 1].sequence
  }

  /** The outcome for a file whose longest clean prefix has `n` lines. */
  predicate StopsAfter(hash: Hasher, lines: seq<Line>, n: nat, v: Verification) {
    && n <= |lines| && Clean(hash, lines[..n]) && (n < |lines| ==> !Clean(hash, lines[..n + 1]))
    && v == Verification(n == |lines|, |EntriesOf(lines[..n])|, LastSequence(EntriesOf(lines[..n])))
  }

  method VerifyLines(hash: Hasher, lines: seq<Line>) returns (v: Verification, ghost n: nat)
    ensures StopsAfter(hash, lines, n, v)
    ensures v.valid <==> Clean(hash, lines)
  {
    var previous, checked, last: U64 := ZERO_HASH, 0, 0;
    for i := 0 to |lines|
      invariant Clean(hash, lines[..i])
      invariant previous == TailHash(EntriesOf(lines[..i]))
      invariant checked == |EntriesOf(lines[..i])| && last == LastSequence(EntriesOf(lines[..i]))
    {
      LineAdded(hash, lines, i);
      match lines[i]
      case Blank =>
      case Garbled =>
        Broken(hash, lines, i);
        return Verification(false, checked, last), i;
      case Written(e) =>
        if DecodeHash(e.previousHash) != Some(previous) || DecodeHash(e.entryHash) != Some(hash(HashedBytes(e))) {
          Broken(hash, lines, i);
          return Verification(false, checked, last), i;
        }
        previous, checked, last := DecodeHash(e.entryHash).value, checked + 1, e.sequence;
    }
    assert lines[..|lines|] == lines;
    return Verification(true, checked, last), |lines|;
  }

  lemma Broken(hash: Hasher, lines: seq<Line>, n: nat)
    requires n < |lines| && !Clean(hash, lines[..n + 1])
    ensures !Clean(hash, lines)
  {
    if Clean(hash, lines) { PrefixIsClean(hash, lines, n + 1); }
  }

  // ---- reopening ----

  function Next(n: U64): U64 {
    (n + 1) % TWO_TO_THE_64
  }

  /** What reopening a file yields: the hash and sequence number that the next entry must carry. */
  function Restored(lines: seq<Line>): Option<(Hash, U64)> {
    if lines == [] then Some((ZERO_HASH, 1))
    else
      var k := |lines| - 1;
      match lines[k]
      case Blank => Restored(lines[..k])
      case Garbled => None
      case Written(e) =>
        if Restored(lines[..k]).None? || DecodeHash(e.entryHash).None? then None
        else Some((DecodeHash(e.entryHash).value, Next(e.sequence)))
  }

  method ReadLastEntry(lines: seq<Line>) returns (r: Option<(Hash, U64)>)
    ensures r == Restored(lines)
  {
    var lastHash, nextSequence: U64 := ZERO_HASH, 1;
    for i := 0 to |lines|
      invariant Restored(lines[..i]) == Some((lastHash, nextSequence))
    {
      assert lines[..i + 1][..i] == lines[..i];
      match lines[i]
      case Blank =>
      case Garbled =>
        NotRestored(lines, i + 1);
        return None;
      case Written(e) =>
        if DecodeHash(e.entryHash).None? {
          NotRestored(lines, i + 1);
          return None;
        }
        lastHash, nextSequence := DecodeHash(e.entryHash).value, Next(e.sequence);
    }
    assert lines[..|lines|] == lines;
    return Some((lastHash, nextSequence));
  }

  lemma {:induction false} NotRestored(lines: seq<Line>, n: nat)
    requires n <= |lines| && Restored(lines[..n]).None?
    ensures Restored(lines).None?
    decreases |lines| - n
  {
    if n < |lines| {
      assert lines[..n + 1][..n] == lines[..n];
      NotRestored(lines, n + 1);
    } else {
      assert lines[..n] == lines;
    }
  }

  // ---- appending ----

  datatype AuditError = InvalidPrevious | ChainBroken(sequence: U64) | WrongSequence | InvalidHash | HashMismatch

  datatype Log = Log(lines: seq<Line>, lastHash: Hash, nextSequence: U64)

  const EMPTY := Log([], ZERO_HASH, 1)

  predicate Accepts(hash: Hasher, log: Log, e: Entry) {
    Linked(hash, log.lastHash, e) && e.sequence == log.nextSequence
  }

  /** The first check, in this order, that the entry does not pass. */
  predicate Explains(hash: Hasher, log: Log, e: Entry, error: AuditError) {
    match error
    case InvalidPrevious => DecodeHash(e.previousHash) == None
    case ChainBroken(sequence) =>
      sequence == e.sequence && DecodeHash(e.previousHash).Some? && DecodeHash(e.previousHash) != Some(log.lastHash)
    case _ =>
      DecodeHash(e.previousHash) == Some(log.lastHash)
      && if error == WrongSequence then e.sequence != log.nextSequence
         else e.sequence == log.nextSequence && DecodeHash(e.entryHash) != Some(hash(HashedBytes(e)))
              && (error == InvalidHash <==> DecodeHash(e.entryHash) == None)
  }

  function Appended(hash: Hasher, log: Log, e: Entry): Log {
    if Accepts(hash, log, e) then Log(log.lines + [Written(e)], Stored(e), Next(e.sequence)) else log
  }

  class AuditLog {
    const hash: Hasher
    var lines: seq<Line>
    var lastHash: Hash
    var nextSequence: U64

    function View(): Log
      reads this
    {
      Log(lines, lastHash, nextSequence)
    }

    constructor (hash: Hasher)
      ensures this.hash == hash && View() == EMPTY
    {
      this.hash := hash;
      lines, lastHash, nextSequence := [], ZERO_HASH, 1;
    }

    method Append(e: Entry) returns (r: Result<(), AuditError>)
      modifies this
      ensures r.Ok? <==> Accepts(hash, old(View()), e)
      ensures r.Err? ==> Explains(hash, old(View()), e, r.error)
      ensures View() == Appended(hash, old(View()), e)
    {
      var previous := DecodeHash(e.previousHash);
      if previous.None? {
        return Err(InvalidPrevious);
      }
      if previous.value != lastHash {
        return Err(ChainBroken(e.sequence));
      }
      if e.sequence != nextSequence {
        return Err(WrongSequence);
      }
      var computed, stored := hash(HashedBytes(e)), DecodeHash(e.entryHash);
      if stored.None? {
        return Err(InvalidHash);
      }
      if computed != stored.value {
        return Err(HashMismatch);
      }
      lines := lines + [Written(e)];
      lastHash, nextSequence := stored.value, Next(e.sequence);
      return Ok(());
    }

    method Verify() returns (v: Verification)
      ensures v.valid <==> Clean(hash, lines)
      ensures exists n: nat :: StopsAfter(hash, lines, n, v)
    {
      ghost var n;
      v, n := VerifyLines(hash, lines);
    }

    /** Starts over from what the file holds. */
    method Reopen() returns (ok: bool)
      modifies this
      ensures lines == old(lines)
      ensures ok <==> Restored(lines).Some?
      ensures ok ==> Some((lastHash, nextSequence)) == Restored(lines)
    {
      var r := ReadLastEntry(lines);
      if r.Some? {
        lastHash, nextSequence := r.value.0, r.value.1;
      }
      ok := r.Some?;
    }
  }

  /** The entry a builder makes from the log's state and whatever the caller fills in. */
  function Build(hash: Hasher, log: Log, draft: Entry): Entry {
    var e := draft.(sequence := log.nextSequence, previousHash := HexEncode(log.lastHash));
    e.(entryHash := HexEncode(hash(HashedBytes(e))))
  }

  /** A freshly built entry is always accepted. */
  lemma BuiltIsAccepted(hash: Hasher, log: Log, draft: Entry)
    ensures Accepts(hash, log, Build(hash, log, draft))
  {
    var e := Build(hash, log, draft);
    HexRoundTrip(log.lastHash);
    HexRoundTrip(hash(HashedBytes(e)));
  }

  /** The builder fills in the number, the link and the hash, and keeps the rest. */
  lemma BuildKeepsDraft(hash: Hasher, log: Log, draft: Entry)
    ensures var e := Build(hash, log, draft);
      && e == draft.(sequence := log.nextSequence, previousHash := e.previousHash, entryHash := e.entryHash)
      && DecodeHash(e.previousHash) == Some(log.lastHash) && DecodeHash(e.entryHash) == Some(hash(HashedBytes(e)))
  {
    BuiltIsAccepted(hash, log, draft);
  }

  lemma AllZero()
    ensures forall i | 0 <= i < 32 :: ZERO_HASH[i] == 0
  {
  }

  lemma ZerosEncoded(bytes: seq<Byte>, i: nat)
    requires i < 2 * |bytes| && forall k | 0 <= k < |bytes| :: bytes[k] == 0
    ensures |HexEncode(bytes)| == 2 * |bytes| && HexEncode(bytes)[i] == '0'
  {
    EncodedAt(bytes, i / 2);
  }

  lemma ZeroText(bytes: seq<Byte>)
    requires |bytes| == 32 && forall k | 0 <= k < 32 :: bytes[k] == 0
    ensures |HexEncode(bytes)| == 64 && forall i | 0 <= i < 64 :: HexEncode(bytes)[i] == '0'
  {
    ZerosEncoded(bytes, 0);
    forall i: nat | i < 64 ensures HexEncode(bytes)[i] == '0' {
      ZerosEncoded(bytes, i);
    }
  }

  lemma BuildLinks(hash: Hasher, log: Log, draft: Entry)
    ensures Build(hash, log, draft).previousHash == HexEncode(log.lastHash)
    ensures Build(hash, log, draft).sequence == log.nextSequence
  {
  }

  /** The first entry of a log is number 1 and links to 64 zeros. */
  lemma FirstEntry(hash: Hasher, draft: Entry)
    ensures var e := Build(hash, EMPTY, draft);
      e.sequence == 1 && |e.previousHash| == 64 && forall i | 0 <= i < 64 :: e.previousHash[i] == '0'
  {
    AllZero();
    ZeroText(EMPTY.lastHash);
    BuildLinks(hash, EMPTY, draft);
  }

  /** A log after any attempts to append, refused ones included. */
  function AppendAll(hash: Hasher, attempts: seq<Entry>): Log {
    if attempts == [] then EMPTY
    else Appended(hash, AppendAll(hash, attempts[..|attempts| - 1]), attempts[|attempts| - 1])
  }

  predicate Numbered(entries: seq<Entry>) {
    forall i | 0 <= i < |entries| :: entries[i].sequence == (i + 1) % TWO_TO_THE_64
  }

  ghost predicate WellBuilt(hash: Hasher, log: Log) {
    var entries := EntriesOf(log.lines);
    && Clean(hash, log.lines) && Numbered(entries) && |entries| == |log.lines|
    && log.lastHash == TailHash(entries) && log.nextSequence == (|entries| + 1) % TWO_TO_THE_64
    && Restored(log.lines) == Some((log.lastHash, log.nextSequence))
  }

  lemma NextNumber(k: nat, n: U64)
    requires n == (k + 1) % TWO_TO_THE_64
    ensures Next(n) == (k + 2) % TWO_TO_THE_64
  {
  }

  lemma NumberedAppend(entries: seq<Entry>, e: Entry)
    requires Numbered(entries) && e.sequence == (|entries| + 1) % TWO_TO_THE_64
    ensures Numbered(entries + [e])
  {
  }

  lemma AppendKeepsWellBuilt(hash: Hasher, log: Log, e: Entry)
    requires WellBuilt(hash, log) && Accepts(hash, log, e)
    ensures WellBuilt(hash, Appended(hash, log, e))
  {
    var lines, n := log.lines + [Written(e)], |log.lines|;
    assert lines[..n] == log.lines && lines[..n + 1] == lines;
    LineAdded(hash, lines, n);
    NumberedAppend(EntriesOf(log.lines), e);
    NextNumber(|EntriesOf(log.lines)|, e.sequence);
  }

  lemma {:induction false} AppendAllWellBuilt(hash: Hasher, attempts: seq<Entry>)
    ensures WellBuilt(hash, AppendAll(hash, attempts))
  {
    if attempts != [] {
      var front, e := attempts[..|attempts| - 1], attempts[|attempts| - 1];
      AppendAllWellBuilt(hash, front);
      if Accepts(hash, AppendAll(hash, front), e) {
        AppendKeepsWellBuilt(hash, AppendAll(hash, front), e);
      }
    }
  }

  lemma LastNumber(entries: seq<Entry>)
    requires Numbered(entries) && |entries| < TWO_TO_THE_64
    ensures LastSequence(entries) == |entries|
  {
  }

  /** Any log built by appending verifies with both counts equal to its length, and reopening it
      restores the same hash and sequence number. */
  lemma BuiltLogVerifies(hash: Hasher, attempts: seq<Entry>, n: nat, v: Verification)
    requires var log := AppendAll(hash, attempts);
      |log.lines| < TWO_TO_THE_64 && StopsAfter(hash, log.lines, n, v)
    ensures var log := AppendAll(hash, attempts);
      && v == Verification(true, |log.lines|, |log.lines|)
      && Restored(log.lines) == Some((log.lastHash, log.nextSequence))
  {
    var log := AppendAll(hash, attempts);
    AppendAllWellBuilt(hash, attempts);
    if n < |log.lines| {
      PrefixIsClean(hash, log.lines, n + 1);
    }
    assert log.lines[..n] == log.lines;
    LastNumber(EntriesOf(log.lines));
  }

  // ---- what the chain fixes ----

  /** Two entries with different hashed bytes and the same hash. */
  predicate Collision(hash: Hasher, a: Entry, b: Entry) {
    HashedBytes(a) != HashedBytes(b) && hash(HashedBytes(a)) == hash(HashedBytes(b))
  }

  lemma SameBytesSamePrevious(a: Entry, b: Entry)
    requires HashedBytes(a) == HashedBytes(b)
    requires DecodeHash(a.previousHash).Some? && DecodeHash(b.previousHash).Some?
    ensures a.previousHash == b.previousHash
  {
    DecodedLength(a.previousHash);
    DecodedLength(b.previousHash);
    var x, y := HashedBytes(a), HashedBytes(b);
    assert x[|x| - 64..] == a.previousHash && y[|y| - 64..] == b.previousHash;
  }

  lemma OneEntryBack(hash: Hasher, previous: Hash, previous': Hash, a: Entry, b: Entry)
    requires Linked(hash, previous, a) && Linked(hash, previous', b) && Stored(a) == Stored(b)
    ensures Collision(hash, a, b) || (HashedBytes(a) == HashedBytes(b) && previous == previous')
  {
    assert hash(HashedBytes(a)) == hash(HashedBytes(b));
    if HashedBytes(a) == HashedBytes(b) {
      SameBytesSamePrevious(a, b);
    }
  }

  predicate SameBytesAt(a: seq<Entry>, b: seq<Entry>, i: nat)
    requires i < |a| && i < |b|
  {
    HashedBytes(a[i]) == HashedBytes(b[i])
  }

  predicate CollisionAt(hash: Hasher, a: seq<Entry>, b: seq<Entry>, i: nat)
    requires i < |a| && i < |b|
  {
    Collision(hash, a[i], b[i])
  }

  ghost predicate SameBytes(a: seq<Entry>, b: seq<Entry>, n: nat)
    requires n <= |a| && n <= |b|
  {
    forall i: nat | i < n :: SameBytesAt(a, b, i)
  }

  ghost predicate SomeCollision(hash: Hasher, a: seq<Entry>, b: seq<Entry>, n: nat)
    requires n <= |a| && n <= |b|
  {
    exists i: nat | i < n :: CollisionAt(hash, a, b, i)
  }

  lemma OnePositionBack(hash: Hasher, a: seq<Entry>, b: seq<Entry>, i: nat)
    requires i < |a| && i < |b| && LinkedAt(hash, a, i) && LinkedAt(hash, b, i)
    requires PreviousOf(a, i + 1) == PreviousOf(b, i + 1)
    ensures CollisionAt(hash, a, b, i) || (SameBytesAt(a, b, i) && PreviousOf(a, i) == PreviousOf(b, i))
  {
    OneEntryBack(hash, PreviousOf(a, i), PreviousOf(b, i), a[i], b[i]);
  }

  lemma OneMorePosition(hash: Hasher, a: seq<Entry>, b: seq<Entry>, n: nat)
    requires n < |a| && n < |b|
    requires CollisionAt(hash, a, b, n) || SomeCollision(hash, a, b, n) || (SameBytes(a, b, n) && SameBytesAt(a, b, n))
    ensures SameBytes(a, b, n + 1) || SomeCollision(hash, a, b, n + 1)
  {
    if !CollisionAt(hash, a, b, n) && SomeCollision(hash, a, b, n) {
      var i: nat :| i < n && CollisionAt(hash, a, b, i);
    }
  }

  /** Two intact logs that reach the same hash after `n` entries hash the same bytes at each of these
      positions, or one of the positions exhibits a collision of the hash. */
  lemma {:induction false} FinalHashFixesBytes(hash: Hasher, a: seq<Entry>, b: seq<Entry>, n: nat)
    requires Intact(hash, a) && Intact(hash, b) && n <= |a| && n <= |b|
    requires PreviousOf(a, n) == PreviousOf(b, n)
    ensures SameBytes(a, b, n) || SomeCollision(hash, a, b, n)
  {
    if n > 0 {
      OnePositionBack(hash, a, b, n - 1);
      if !CollisionAt(hash, a, b, n - 1) {
        FinalHashFixesBytes(hash, a, b, n - 1);
      }
      OneMorePosition(hash, a, b, n - 1);
    }
  }

  /** Two files that pass verification and end in the same hash after equally many entries hold the
      same hashed bytes throughout, unless the hash collides on some pair of their entries. */
  lemma EqualEndsAgree(hash: Hasher, a: seq<Line>, b: seq<Line>)
    requires Clean(hash, a) && Clean(hash, b)
    requires |EntriesOf(a)| == |EntriesOf(b)| && TailHash(EntriesOf(a)) == TailHash(EntriesOf(b))
    ensures SameBytes(EntriesOf(a), EntriesOf(b), |EntriesOf(a)|)
         || SomeCollision(hash, EntriesOf(a), EntriesOf(b), |EntriesOf(a)|)
  {
    FinalHashFixesBytes(hash, EntriesOf(a), EntriesOf(b), |EntriesOf(a)|);
  }

  // ---- what the bytes fix of an entry ----

  function AllFields(e: Entry): seq<string> {
    Fields(e) + [e.previousHash]
  }

  lemma {:induction false} ConcatAppend(parts: seq<string>, last: string)
    ensures Concat(parts + [last]) == Concat(parts) + last
  {
    if parts == [] {
      assert parts + [last] == [last] && [last][1..] == [];
    } else {
      assert (parts + [last])[1..] == parts[1..] + [last];
      ConcatAppend(parts[1..], last);
      assert parts[0] + (Concat(parts[1..]) + last) == (parts[0] + Concat(parts[1..])) + last;
    }
  }

  lemma HashedFields(e: Entry)
    ensures HashedBytes(e) == Concat(AllFields(e))
  {
    ConcatAppend(Fields(e), e.previousHash);
  }

  ghost predicate SameLengths(a: seq<string>, b: seq<string>) {
    |a| == |b| && forall i | 0 <= i < |a| :: |a[i]| == |b[i]|
  }

  lemma Split(a: string, b: string, x: string, y: string)
    requires a + x == b + y && |a| == |b|
    ensures a == b && x == y
  {
    assert a == (a + x)[..|a|] && b == (b + y)[..|b|];
    assert x == (a + x)[|a|..] && y == (b + y)[|b|..];
  }

  lemma {:induction false} JoinedAlike(a: seq<string>, b: seq<string>)
    requires Concat(a) == Concat(b) && SameLengths(a, b)
    ensures a == b
  {
    if a != [] {
      Split(a[0], b[0], Concat(a[1..]), Concat(b[1..]));
      JoinedAlike(a[1..], b[1..]);
      assert a == [a[0]] + a[1..] && b == [b[0]] + b[1..];
    }
  }

  /** Equal bytes fix the fields exactly when corresponding fields are equally long. */
  lemma FieldsFixedExactly(a: Entry, b: Entry)
    requires HashedBytes(a) == HashedBytes(b)
    ensures AllFields(a) == AllFields(b) <==> SameLengths(AllFields(a), AllFields(b))
  {
    HashedFields(a);
    HashedFields(b);
    if SameLengths(AllFields(a), AllFields(b)) {
      JoinedAlike(AllFields(a), AllFields(b));
    }
  }

  lemma {:induction false} ConcatParts(front: seq<string>, back: seq<string>)
    ensures Concat(front + back) == Concat(front) + Concat(back)
  {
    if front == [] {
      assert front + back == back;
    } else {
      assert (front + back)[1..] == front[1..] + back;
      ConcatParts(front[1..], back);
    }
  }

  lemma PairConcat(x: string, y: string)
    ensures Concat([x, y]) == x + y
  {
    var none: seq<string> := [];
    assert [x, y][1..] == [y] && [y][1..] == none;
    assert Concat(none) == "" && Concat([y]) == y + "" == y;
  }

  /** Entries that are alike but for one field never hash the same bytes. */
  lemma OneFieldShows(a: Entry, b: Entry, i: nat)
    requires i < |AllFields(a)| && AllFields(a)[i] != AllFields(b)[i]
    requires forall j | 0 <= j < |AllFields(a)| && j != i :: AllFields(a)[j] == AllFields(b)[j]
    ensures HashedBytes(a) != HashedBytes(b)
  {
    if HashedBytes(a) == HashedBytes(b) {
      HashedFields(a);
      HashedFields(b);
      OthersFixLength(AllFields(a), AllFields(b), i);
      FieldsFixedExactly(a, b);
    }
  }

  lemma {:induction false} OthersFixLength(a: seq<string>, b: seq<string>, i: nat)
    requires |a| == |b| && i < |a| && |Concat(a)| == |Concat(b)|
    requires forall j | 0 <= j < |a| && j != i :: a[j] == b[j]
    ensures |a[i]| == |b[i]|
  {
    if i == 0 {
      assert a[1..] == b[1..];
    } else {
      OthersFixLength(a[1..], b[1..], i - 1);
    }
  }

  /** The bytes, spelled out: eight bytes of the sequence number, the lowest first, and then the fields. */
  lemma BytesSpelled(e: Entry)
    ensures |HashedBytes(e)| >= 8
    ensures forall i | 0 <= i < 8 :: HashedBytes(e)[i] as nat == e.sequence / Power256(i) % 256
    ensures HashedBytes(e)[8..] ==
      e.timestamp + (e.requestId + (e.source + (e.endpointId + (e.verb + (e.path + (e.parametersHash + (e.level
      + ((if e.approvalId.Some? then e.approvalId.value else "") + (e.status + (e.resultHash
      + ((if e.error.Some? then e.error.value else "") + e.previousHash)))))))))))
  {
    HashedFields(e);
    LittleEndianLength(e.sequence, 8);
    forall i | 0 <= i < 8 ensures LittleEndian(e.sequence, 8)[i] as nat == e.sequence / Power256(i) % 256 {
      LittleEndianAt(e.sequence, 8, i);
    }
    var f := AllFields(e);
    assert HashedBytes(e) == f[0] + Concat(f[1..]);
    Unrolled(f[1..]);
  }

  lemma ConcatFirst(first: string, rest: seq<string>)
    ensures Concat([first] + rest) == first + Concat(rest)
  {
    assert ([first] + rest)[1..] == rest;
  }

  lemma Unrolled(f: seq<string>)
    requires |f| == 13
    ensures Concat(f) == f[0] + (f[1] + (f[2] + (f[3] + (f[4] + (f[5] + (f[6] + (f[7] + (f[8] + (f[9] + (f[10]
                      + (f[11] + f[12])))))))))))
  {
    Unrolled4(f[..4], f[4..]);
    Unrolled4(f[4..][..4], f[4..][4..]);
    Unrolled4(f[4..][4..][..4], f[4..][4..][4..]);
    assert f == f[..4] + f[4..] && f[4..] == f[4..][..4] + f[4..][4..];
    var last := f[4..][4..][4..];
    assert f[4..][4..] == f[4..][4..][..4] + last;
    assert last == [f[12]] && last[1..] == [];
    assert Concat(last) == f[12] + Concat(last[1..]) == f[12];
  }

  lemma Unrolled4(f: seq<string>, rest: seq<string>)
    requires |f| == 4
    ensures Concat(f + rest) == f[0] + (f[1] + (f[2] + (f[3] + Concat(rest))))
  {
    ConcatFirst(f[3], rest);
    ConcatFirst(f[2], [f[3]] + rest);
    ConcatFirst(f[1], [f[2]] + ([f[3]] + rest));
    ConcatFirst(f[0], [f[1]] + ([f[2]] + ([f[3]] + rest)));
    assert f + rest == [f[0]] + ([f[1]] + ([f[2]] + ([f[3]] + rest)));
  }

  /** So text can move between neighbouring fields, here from the path to the parameter hash. */
  lemma FieldBoundaryNotFixed(hash: Hasher, previous: Hash, e: Entry, path: string, parametersHash: string)
    requires path + parametersHash == e.path + e.parametersHash
    ensures Linked(hash, previous, e.(path := path, parametersHash := parametersHash)) <==> Linked(hash, previous, e)
  {
    var moved := e.(path := path, parametersHash := parametersHash);
    var front, back := Fields(e)[..6], Fields(e)[8..];
    assert Fields(e) == front + ([e.path, e.parametersHash] + back);
    assert Fields(moved) == front + ([path, parametersHash] + back);
    ConcatParts(front, [e.path, e.parametersHash] + back);
    ConcatParts(front, [path, parametersHash] + back);
    ConcatParts([e.path, e.parametersHash], back);
    ConcatParts([path, parametersHash], back);
    PairConcat(e.path, e.parametersHash);
    PairConcat(path, parametersHash);
  }

  // ---- logs of any length ----

  lemma DigitsOf(m: nat, n: nat)
    requires m % 256 == n % 256 && m / 256 == n / 256
    ensures m == n
  {
    assert m == 256 * (m / 256) + m % 256 && n == 256 * (n / 256) + n % 256;
  }

  function Power256(width: nat): (p: nat)
    ensures p > 0
  {
    if width == 0 then 1 else 256 * Power256(width - 1)
  }

  lemma {:induction false} LittleEndianFixes(m: nat, n: nat, width: nat)
    requires LittleEndian(m, width) == LittleEndian(n, width) && m < Power256(width) && n < Power256(width)
    ensures m == n
  {
    if width > 0 {
      var a, b := LittleEndian(m, width), LittleEndian(n, width);
      assert a[0] == b[0] && a[1..] == b[1..];
      assert a[1..] == LittleEndian(m / 256, width - 1) && b[1..] == LittleEndian(n / 256, width - 1);
      LittleEndianFixes(m / 256, n / 256, width - 1);
      DigitsOf(m, n);
    }
  }

  lemma {:induction false} LittleEndianAt(n: nat, width: nat, i: nat)
    requires i < width
    ensures |LittleEndian(n, width)| == width && LittleEndian(n, width)[i] as nat == n / Power256(i) % 256
  {
    LittleEndianLength(n, width);
    if i > 0 {
      LittleEndianAt(n / 256, width - 1, i - 1);
      DivideTwice(n, Power256(i - 1));
    }
  }

  lemma DivideTwice(n: nat, d: nat)
    requires d > 0
    ensures 256 * d > 0 && n / (256 * d) == n / 256 / d
  {
    var q, r := n / 256 / d, n / 256 % d;
    var low := n % 256;
    assert n == 256 * (d * q + r) + low;
    assert 0 <= 256 * r + low < 256 * d;
    QuotientIs(n, 256 * d, q, 256 * r + low);
  }

  lemma QuotientIs(n: int, d: int, q: int, r: int)
    requires d > 0 && n == d * q + r && 0 <= r < d
    ensures n / d == q
  {
    var q', r' := n / d, n % d;
    assert d * (q - q') == r' - r;
    assert -d < r' - r < d;
    MultipleIsNone(d, q - q');
  }

  lemma MultipleIsNone(d: int, k: int)
    requires -d < d * k < d
    ensures k == 0
  {
  }

  lemma {:induction false} LittleEndianLength(n: nat, width: nat)
    ensures |LittleEndian(n, width)| == width
  {
    if width > 0 { LittleEndianLength(n / 256, width - 1); }
  }

  /** The sequence number leads the hashed bytes and has a fixed width. */
  lemma BytesFixSequence(a: Entry, b: Entry)
    requires HashedBytes(a) == HashedBytes(b)
    ensures a.sequence == b.sequence
  {
    HashedFields(a);
    HashedFields(b);
    LittleEndianLength(a.sequence, 8);
    LittleEndianLength(b.sequence, 8);
    Split(AllFields(a)[0], AllFields(b)[0], Concat(AllFields(a)[1..]), Concat(AllFields(b)[1..]));
    assert Power256(8) == TWO_TO_THE_64;
    LittleEndianFixes(a.sequence, b.sequence, 8);
  }

  ghost predicate AnyCollision(hash: Hasher, a: seq<Entry>, b: seq<Entry>) {
    exists x, y | x in a && y in b :: Collision(hash, x, y)
  }

  /** Logs built by appending that end in the same hash are equally long and hold the same hashed
      bytes, unless the hash collides on some of their entries or the last entry of one hashes to the
      value that stands for an empty log. */
  lemma BuiltLogsAgree(hash: Hasher, attempts: seq<Entry>, attempts': seq<Entry>)
    requires var a, b := AppendAll(hash, attempts), AppendAll(hash, attempts');
      a.lastHash == b.lastHash && |a.lines| < TWO_TO_THE_64 && |b.lines| < TWO_TO_THE_64
    ensures var a, b := EntriesOf(AppendAll(hash, attempts).lines), EntriesOf(AppendAll(hash, attempts').lines);
      || (|a| == |b| && SameBytes(a, b, |a|))
      || AnyCollision(hash, a, b)
      || (a == [] && b != [] && hash(HashedBytes(b[|b| - 1])) == ZERO_HASH)
      || (b == [] && a != [] && hash(HashedBytes(a[|a| - 1])) == ZERO_HASH)
  {
    var la, lb := AppendAll(hash, attempts), AppendAll(hash, attempts');
    AppendAllWellBuilt(hash, attempts);
    AppendAllWellBuilt(hash, attempts');
    NumberedEndsAgree(hash, EntriesOf(la.lines), EntriesOf(lb.lines));
  }

  lemma NumberedEndsAgree(hash: Hasher, a: seq<Entry>, b: seq<Entry>)
    requires Intact(hash, a) && Intact(hash, b) && Numbered(a) && Numbered(b) && TailHash(a) == TailHash(b)
    requires |a| < TWO_TO_THE_64 && |b| < TWO_TO_THE_64
    ensures (|a| == |b| && SameBytes(a, b, |a|)) || AnyCollision(hash, a, b)
         || (a == [] && b != [] && hash(HashedBytes(b[|b| - 1])) == ZERO_HASH)
         || (b == [] && a != [] && hash(HashedBytes(a[|a| - 1])) == ZERO_HASH)
  {
    if a != [] { assert LinkedAt(hash, a, |a| - 1); }
    if b != [] { assert LinkedAt(hash, b, |b| - 1); }
    if a != [] && b != [] && !Collision(hash, a[|a| - 1], b[|b| - 1]) {
      BytesFixSequence(a[|a| - 1], b[|b| - 1]);
      LastNumber(a);
      LastNumber(b);
      SameLengthAgree(hash, a, b);
    } else if a != [] && b != [] {
      assert a[|a| - 1] in a && b[|b| - 1] in b;
    }
  }

  lemma SameLengthAgree(hash: Hasher, a: seq<Entry>, b: seq<Entry>)
    requires Intact(hash, a) && Intact(hash, b) && |a| == |b| && TailHash(a) == TailHash(b)
    ensures SameBytes(a, b, |a|) || AnyCollision(hash, a, b)
  {
    FinalHashFixesBytes(hash, a, b, |a|);
    if !SameBytes(a, b, |a|) {
      var i: nat :| i < |a| && CollisionAt(hash, a, b, i);
      assert a[i] in a && b[i] in b;
    }
  }
}
