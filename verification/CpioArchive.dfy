/**
 The newc cpio reader of the Lambda guest image checker: entries are parsed at
 4-aligned offsets until the trailer, and the single agent entry is returned.
 */
module CpioArchive {
  import opened Wrappers
  import opened Paths

  type Byte = c: char | c as int < 256 witness '\0'
  type Bytes = seq<Byte>

  const NUL: Byte := '\0'
  const AGENT_PATH: string := "usr/local/bin/lambda-agent"
  const AGENT_PARENTS: seq<string> := ["usr", "usr/local", "usr/local/bin"]
  const TRAILER: string := "TRAILER!!!"
  const MAX_ARCHIVE := 0x4000_0000
  const MAX_AGENT := 0x1000_0000
  const MAX_NAME := 4096
  const HEADER := 110

  datatype Entry = Entry(name: Bytes, mode: nat, nlink: nat, data: Bytes)

  datatype ParseError = TruncatedHeader | BadMagic | BadField | NameSizeOutOfRange | TruncatedEntry | BadName

  datatype Parsed = Bad(error: ParseError) | Parsed(entry: Entry, next: nat)

  // Header fields: eight hexadecimal digits of either case.

  predicate IsHex(c: char) { '0' <= c <= '9' || 'a' <= c <= 'f' || 'A' <= c <= 'F' }

  function HexDigit(c: char): (d: nat)
    requires IsHex(c)
    ensures d < 16
  {
    if c <= '9' then c as int - '0' as int
    else if c <= 'F' then c as int - 'A' as int + 10
    else c as int - 'a' as int + 10
  }

  predicate AllHex(s: string) { forall i :: 0 <= i < |s| ==> IsHex(s[i]) }

  function HexValue(s: string): nat
    requires AllHex(s)
  {
    if s == [] then 0 else 16 * HexValue(s[..|s| - 1]) + HexDigit(s[|s| - 1])
  }

  function FieldText(h: Bytes, i: nat): string
    requires |h| == HEADER && i < 13
  {
    h[6 + 8 * i..14 + 8 * i]
  }

  predicate HasField(h: Bytes, i: nat, v: nat)
    requires |h| == HEADER && i < 13
  {
    AllHex(FieldText(h, i)) && HexValue(FieldText(h, i)) == v
  }

  predicate IsMagic(m: string) { m == "070701" || m == "070702" }

  function Align4(n: nat): (r: nat)
    ensures n <= r < n + 4 && r % 4 == 0
  {
    (n + 3) / 4 * 4
  }

  datatype Fields = Fields(mode: nat, nlink: nat, size: nat, nameSize: nat)

  datatype Header = BadHeader(error: ParseError) | Header(fields: Fields)

  function ParseHeader(h: Bytes): (r: Header)
    requires |h| == HEADER
  {
    if !IsMagic(h[..6]) then BadHeader(BadMagic)
    else if !AllHex(FieldText(h, 1)) || !AllHex(FieldText(h, 4)) || !AllHex(FieldText(h, 6)) || !AllHex(FieldText(h, 11)) then BadHeader(BadField)
    else
      var nameSize := HexValue(FieldText(h, 11));
      if nameSize < 2 || nameSize > MAX_NAME then BadHeader(NameSizeOutOfRange)
      else Header(Fields(HexValue(FieldText(h, 1)), HexValue(FieldText(h, 4)), HexValue(FieldText(h, 6)), nameSize))
  }

  function ParseBody(raw: Bytes, off: nat, f: Fields): (r: Parsed)
    requires off + HEADER <= |raw| && 2 <= f.nameSize
    ensures r.Parsed? ==> off + HEADER < r.next <= |raw| && r.next % 4 == 0
  {
    var nameEnd := off + HEADER + f.nameSize;
    var dataOff := Align4(nameEnd);
    var dataEnd := dataOff + f.size;
    if dataEnd > |raw| || Align4(dataEnd) > |raw| then Bad(TruncatedEntry)
    else
      var name := raw[off + HEADER..nameEnd];
      if name[f.nameSize - 1] != NUL || NUL in name[..f.nameSize - 1] then Bad(BadName)
      else Parsed(Entry(name[..f.nameSize - 1], f.mode, f.nlink, raw[dataOff..dataEnd]), Align4(dataEnd))
  }

  /** A successful parse moves to a later 4-aligned offset inside the archive. */
  function ParseEntry(raw: Bytes, off: nat): (r: Parsed)
    requires off <= |raw|
    ensures r.Parsed? ==> off + HEADER < r.next <= |raw| && r.next % 4 == 0
  {
    if |raw| - off < HEADER then Bad(TruncatedHeader)
    else
      match ParseHeader(raw[off..off + HEADER])
      case BadHeader(error) => Bad(error)
      case Header(fields) => ParseBody(raw, off, fields)
  }

  // What an entry looks like on disk, stated without offsets.

  /** One entry's bytes: header, name, its NUL, padding, data, padding. */
  datatype Piece = Piece(header: Bytes, entry: Entry, namePad: Bytes, dataPad: Bytes)

  function Lay(p: Piece): Bytes { p.header + (p.entry.name + [NUL]) + p.namePad + p.entry.data + p.dataPad }

  ghost predicate LaidHeader(h: Bytes, f: Fields) {
    && |h| == HEADER && IsMagic(h[..6])
    && HasField(h, 1, f.mode) && HasField(h, 4, f.nlink) && HasField(h, 6, f.size) && HasField(h, 11, f.nameSize)
    && 2 <= f.nameSize <= MAX_NAME
  }

  ghost predicate Laid(p: Piece) {
    && LaidHeader(p.header, Fields(p.entry.mode, p.entry.nlink, |p.entry.data|, |p.entry.name| + 1))
    && NUL !in p.entry.name
    && |p.namePad| < 4 && (HEADER + |p.entry.name| + 1 + |p.namePad|) % 4 == 0
    && |p.dataPad| < 4 && (|p.entry.data| + |p.dataPad|) % 4 == 0
  }

  lemma HeaderLaid(h: Bytes, f: Fields)
    requires |h| == HEADER
    ensures LaidHeader(h, f) <==> ParseHeader(h) == Header(f)
  {
  }

  /** The digits a header field is read with: 0 to 9, then a to f in either case, worth 0 to 15; and the two archive magics. */
  lemma HexMeaning(c: char, m: string)
    ensures IsHex(c) <==> c in "0123456789abcdefABCDEF"
    ensures forall d :: 0 <= d < 16 ==> IsHex("0123456789abcdef"[d]) && HexDigit("0123456789abcdef"[d]) == d
    ensures forall d :: 0 <= d < 16 ==> IsHex("0123456789ABCDEF"[d]) && HexDigit("0123456789ABCDEF"[d]) == d
    ensures IsMagic(m) <==> m in ["070701", "070702"]
  {
  }

  lemma AlignUnique(n: nat, pad: nat)
    requires pad < 4 && (n + pad) % 4 == 0
    ensures Align4(n) == n + pad
  {
  }

  lemma SliceOf(raw: Bytes, off: nat, lay: Bytes, i: nat, j: nat)
    requires off + |lay| <= |raw| && raw[off..off + |lay|] == lay && i <= j <= |lay|
    ensures raw[off + i..off + j] == lay[i..j]
  {
    forall k | i <= k < j ensures raw[off + k] == lay[k] {
      assert raw[off..off + |lay|][k] == raw[off + k];
    }
  }

  lemma LaySlices(p: Piece)
    requires |p.header| == HEADER
    ensures var n := |p.entry.name| + 1; var d := HEADER + n + |p.namePad|;
            && |Lay(p)| == d + |p.entry.data| + |p.dataPad|
            && Lay(p)[..HEADER] == p.header
            && Lay(p)[HEADER..HEADER + n] == p.entry.name + [NUL]
            && Lay(p)[d..d + |p.entry.data|] == p.entry.data
  {
  }

  lemma ParseBodyParts(raw: Bytes, off: nat, e: Entry, namePad: nat, dataPad: nat)
    requires |e.name| >= 1 && NUL !in e.name && namePad < 4 && dataPad < 4
    requires var d := off + HEADER + |e.name| + 1 + namePad;
             && d % 4 == 0 && (d + |e.data| + dataPad) % 4 == 0 && d + |e.data| + dataPad <= |raw|
             && raw[off + HEADER..off + HEADER + |e.name| + 1] == e.name + [NUL]
             && raw[d..d + |e.data|] == e.data
    ensures ParseBody(raw, off, Fields(e.mode, e.nlink, |e.data|, |e.name| + 1))
         == Parsed(e, off + HEADER + |e.name| + 1 + namePad + |e.data| + dataPad)
  {
    AlignUnique(off + HEADER + |e.name| + 1, namePad);
    AlignUnique(off + HEADER + |e.name| + 1 + namePad + |e.data|, dataPad);
    assert (e.name + [NUL])[..|e.name|] == e.name;
  }

  lemma PartsAt(raw: Bytes, off: nat, p: Piece)
    requires |p.header| == HEADER && off + |Lay(p)| <= |raw| && raw[off..off + |Lay(p)|] == Lay(p)
    ensures var n := |p.entry.name| + 1; var d := off + HEADER + n + |p.namePad|;
            && off + |Lay(p)| == d + |p.entry.data| + |p.dataPad|
            && raw[off..off + HEADER] == p.header
            && raw[off + HEADER..off + HEADER + n] == p.entry.name + [NUL]
            && raw[d..d + |p.entry.data|] == p.entry.data
  {
    LaySlices(p);
    hide Lay;
    var n := |p.entry.name| + 1;
    var d := HEADER + n + |p.namePad|;
    SliceOf(raw, off, Lay(p), 0, HEADER);
    SliceOf(raw, off, Lay(p), HEADER, HEADER + n);
    SliceOf(raw, off, Lay(p), d, d + |p.entry.data|);
  }

  lemma ParseParts(raw: Bytes, off: nat, f: Fields)
    requires off + HEADER <= |raw| && ParseHeader(raw[off..off + HEADER]) == Header(f)
    ensures ParseEntry(raw, off) == ParseBody(raw, off, f)
  {
  }

  /** Whatever surrounds it, a laid-out entry at an aligned offset parses to itself. */
  lemma ParseLaid(raw: Bytes, off: nat, p: Piece)
    requires off % 4 == 0 && Laid(p) && off + |Lay(p)| <= |raw| && raw[off..off + |Lay(p)|] == Lay(p)
    ensures ParseEntry(raw, off) == Parsed(p.entry, off + |Lay(p)|)
  {
    hide Lay, HasField, IsMagic, ParseEntry, ParseHeader, ParseBody;
    var f := Fields(p.entry.mode, p.entry.nlink, |p.entry.data|, |p.entry.name| + 1);
    PartsAt(raw, off, p);
    HeaderLaid(p.header, f);
    ParseParts(raw, off, f);
    ParseBodyParts(raw, off, p.entry, |p.namePad|, |p.dataPad|);
  }

  /** The piece of `raw` that a successful parse read. */
  ghost function PieceAt(raw: Bytes, off: nat): Piece
    requires off <= |raw| && ParseEntry(raw, off).Parsed?
  {
    var r := ParseEntry(raw, off);
    var nameEnd := off + HEADER + |r.entry.name| + 1;
    var dataOff := Align4(nameEnd);
    Piece(raw[off..off + HEADER], r.entry, raw[nameEnd..dataOff], raw[dataOff + |r.entry.data|..r.next])
  }

  lemma Cut(raw: Bytes, a: nat, b: nat, c: nat)
    requires a <= b <= c <= |raw|
    ensures raw[a..c] == raw[a..b] + raw[b..c]
  {
  }

  lemma AlignedDifference(a: nat, b: nat)
    requires a % 4 == 0 && b % 4 == 0 && b <= a
    ensures (a - b) % 4 == 0
  {
  }

  /** Where an entry's name, data and end lie, and that the name and data are what is there. */
  ghost predicate BodyAt(raw: Bytes, off: nat, f: Fields, e: Entry, next: nat) {
    var nameEnd := off + HEADER + f.nameSize; var dataOff := Align4(nameEnd);
    && f == Fields(e.mode, e.nlink, |e.data|, |e.name| + 1) && NUL !in e.name
    && next == Align4(dataOff + f.size) && nameEnd <= dataOff && dataOff + f.size <= next <= |raw|
    && raw[off + HEADER..nameEnd] == e.name + [NUL] && raw[dataOff..dataOff + f.size] == e.data
    && (dataOff - off) % 4 == 0 && (next - dataOff) % 4 == 0
  }

  lemma BodySound(raw: Bytes, off: nat, f: Fields)
    requires off + HEADER <= |raw| && off % 4 == 0 && 2 <= f.nameSize && ParseBody(raw, off, f).Parsed?
    ensures BodyAt(raw, off, f, ParseBody(raw, off, f).entry, ParseBody(raw, off, f).next)
  {
    AlignedDifference(Align4(off + HEADER + f.nameSize), off);
  }

  lemma FiveCuts(raw: Bytes, a: nat, b: nat, c: nat, d: nat, e: nat, g: nat)
    requires a <= b <= c <= d <= e <= g <= |raw|
    ensures raw[a..g] == raw[a..b] + raw[b..c] + raw[c..d] + raw[d..e] + raw[e..g]
  {
    Cut(raw, a, b, c);
    Cut(raw, a, c, d);
    Cut(raw, a, d, e);
    Cut(raw, a, e, g);
  }

  /** The piece of `raw` between `off` and `next` that holds the entry. */
  ghost function PieceOf(raw: Bytes, off: nat, f: Fields, e: Entry, next: nat): Piece
    requires BodyAt(raw, off, f, e, next)
  {
    var nameEnd := off + HEADER + f.nameSize;
    var dataOff := Align4(nameEnd);
    Piece(raw[off..off + HEADER], e, raw[nameEnd..dataOff], raw[dataOff + f.size..next])
  }

  lemma BodyLays(raw: Bytes, off: nat, f: Fields, e: Entry, next: nat)
    requires BodyAt(raw, off, f, e, next)
    ensures raw[off..next] == Lay(PieceOf(raw, off, f, e, next))
  {
    hide Align4;
    var nameEnd := off + HEADER + f.nameSize;
    var dataOff := Align4(nameEnd);
    assert nameEnd <= dataOff <= dataOff + f.size <= next <= |raw|;
    assert e.name + [NUL] == raw[off + HEADER..nameEnd] && e.data == raw[dataOff..dataOff + f.size];
    assert PieceOf(raw, off, f, e, next) == Piece(raw[off..off + HEADER], e, raw[nameEnd..dataOff], raw[dataOff + f.size..next]);
    hide BodyAt, PieceOf;
    FiveCuts(raw, off, off + HEADER, nameEnd, dataOff, dataOff + f.size, next);
  }

  lemma BodyLaid(raw: Bytes, off: nat, f: Fields, e: Entry, next: nat)
    requires BodyAt(raw, off, f, e, next) && LaidHeader(raw[off..off + HEADER], f)
    ensures Laid(PieceOf(raw, off, f, e, next))
  {
    hide LaidHeader;
  }

  lemma EntryAt(raw: Bytes, off: nat) returns (f: Fields)
    requires off <= |raw| && off % 4 == 0 && ParseEntry(raw, off).Parsed?
    ensures off + HEADER <= |raw| && LaidHeader(raw[off..off + HEADER], f)
    ensures BodyAt(raw, off, f, ParseEntry(raw, off).entry, ParseEntry(raw, off).next)
  {
    f := ParseHeader(raw[off..off + HEADER]).fields;
    HeaderLaid(raw[off..off + HEADER], f);
    ParseParts(raw, off, f);
    hide ParseEntry, ParseHeader, ParseBody, HasField, IsMagic, BodyAt;
    BodySound(raw, off, f);
  }

  /** A successful parse read exactly one laid-out entry. */
  lemma ParseSound(raw: Bytes, off: nat)
    requires off <= |raw| && off % 4 == 0 && ParseEntry(raw, off).Parsed?
    ensures Laid(PieceAt(raw, off)) && PieceAt(raw, off).entry == ParseEntry(raw, off).entry
    ensures raw[off..ParseEntry(raw, off).next] == Lay(PieceAt(raw, off))
  {
    hide ParseEntry, LaidHeader, Laid, Lay;
    var f := EntryAt(raw, off);
    BodyLays(raw, off, f, ParseEntry(raw, off).entry, ParseEntry(raw, off).next);
    BodyLaid(raw, off, f, ParseEntry(raw, off).entry, ParseEntry(raw, off).next);
    SamePiece(raw, off, f);
  }

  lemma SamePiece(raw: Bytes, off: nat, f: Fields)
    requires off <= |raw| && ParseEntry(raw, off).Parsed? && BodyAt(raw, off, f, ParseEntry(raw, off).entry, ParseEntry(raw, off).next)
    ensures PieceAt(raw, off) == PieceOf(raw, off, f, ParseEntry(raw, off).entry, ParseEntry(raw, off).next)
  {
    hide ParseEntry, Align4;
  }

  // The archive.

  datatype ScanError =
    | ArchiveTooLarge
    | AtEntry(off: nat, error: ParseError)
    | NotCanonical(name: Bytes)
    | Duplicate(name: Bytes)
    | NotDirectory(name: Bytes)
    | NoParent(parent: string)
    | NotRegular
    | Links(count: nat)
    | AgentTooLarge
    | DataAfterTrailer(off: nat)
    | NoAgent

  datatype Outcome = Rejected(error: ScanError) | Agent(data: Bytes)

  predicate IsDirectory(mode: nat) { mode / 0x1000 % 16 == 4 }
  predicate IsRegular(mode: nat) { mode / 0x1000 % 16 == 8 }

  predicate Canonical(name: string) {
    if name == "." then true
    else if name == "" || name[0] == '/' then false
    else forall c :: c in Split(name) ==> c != "" && c != "." && c != ".."
  }

  /** The first parent of the agent that is not in `seen`. */
  function MissingParent(seen: set<Bytes>): Option<string> {
    if AGENT_PARENTS[0] !in seen then Some(AGENT_PARENTS[0])
    else if AGENT_PARENTS[1] !in seen then Some(AGENT_PARENTS[1])
    else if AGENT_PARENTS[2] !in seen then Some(AGENT_PARENTS[2])
    else None
  }

  /** Why an entry met after the names in `seen` is refused. */
  function Problem(e: Entry, seen: set<Bytes>): Option<ScanError> {
    if !Canonical(e.name) then Some(NotCanonical(e.name))
    else if e.name in seen then Some(Duplicate(e.name))
    else if e.name in AGENT_PARENTS && !IsDirectory(e.mode) then Some(NotDirectory(e.name))
    else if e.name == AGENT_PATH then
      match MissingParent(seen + {e.name})
      case Some(p) => Some(NoParent(p))
      case None =>
        if !IsRegular(e.mode) then Some(NotRegular)
        else if e.nlink != 1 then Some(Links(e.nlink))
        else if |e.data| > MAX_AGENT then Some(AgentTooLarge)
        else None
    else None
  }

  function FirstNonZero(raw: Bytes, off: nat): (i: nat)
    requires off <= |raw|
    ensures off <= i <= |raw|
    ensures forall k :: off <= k < i ==> raw[k] == NUL
    ensures i < |raw| ==> raw[i] != NUL
    decreases |raw| - off
  {
    if off == |raw| || raw[off] != NUL then off else FirstNonZero(raw, off + 1)
  }

  function Finish(raw: Bytes, off: nat, agent: Option<Bytes>): Outcome
    requires off <= |raw|
  {
    if FirstNonZero(raw, off) < |raw| then Rejected(DataAfterTrailer(FirstNonZero(raw, off)))
    else match agent case None => Rejected(NoAgent) case Some(data) => Agent(data)
  }

  function Scan(raw: Bytes, off: nat, seen: set<Bytes>, agent: Option<Bytes>): Outcome
    requires off <= |raw|
    decreases |raw| - off
  {
    match ParseEntry(raw, off)
    case Bad(error) => Rejected(AtEntry(off, error))
    case Parsed(e, next) =>
      if e.name == TRAILER then Finish(raw, next, agent)
      else
        match Problem(e, seen)
        case Some(error) => Rejected(error)
        case None => Scan(raw, next, seen + {e.name}, if e.name == AGENT_PATH then Some(e.data) else agent)
  }

  method ArchivedAgent(raw: Bytes) returns (r: Outcome)
    ensures r == if |raw| > MAX_ARCHIVE then Rejected(ArchiveTooLarge) else Scan(raw, 0, {}, None)
  {
    if |raw| > MAX_ARCHIVE { return Rejected(ArchiveTooLarge); }
    var seen: set<Bytes> := {};
    var agent: Option<Bytes> := None;
    var off := 0;
    while true
      invariant off <= |raw| && off % 4 == 0
      invariant Scan(raw, 0, {}, None) == Scan(raw, off, seen, agent)
      decreases |raw| - off
    {
      var p := ParseEntry(raw, off);
      if p.Bad? { return Rejected(AtEntry(off, p.error)); }
      var e := p.entry;
      if e.name == TRAILER { return Finish(raw, p.next, agent); }
      var problem := Problem(e, seen);
      if problem.Some? { return Rejected(problem.value); }
      seen := seen + {e.name};
      if e.name == AGENT_PATH { agent := Some(e.data); }
      off := p.next;
    }
  }

  // When an archive is accepted, over its list of entries.

  ghost predicate Acceptable(entries: seq<Entry>, data: Bytes) {
    && (forall i :: 0 <= i < |entries| ==> Canonical(entries[i].name))
    && (forall i, j :: 0 <= i < j < |entries| ==> entries[i].name != entries[j].name)
    && (forall i :: 0 <= i < |entries| ==> entries[i].name in AGENT_PARENTS ==> IsDirectory(entries[i].mode))
    && exists k :: 0 <= k < |entries| && AgentAt(entries, k, data)
  }

  /** Entry `k` is the agent, a regular single-link file after all its parent directories. */
  ghost predicate AgentAt(entries: seq<Entry>, k: nat, data: Bytes)
    requires k < |entries|
  {
    && entries[k].name == AGENT_PATH && IsRegular(entries[k].mode) && entries[k].nlink == 1
    && entries[k].data == data && |data| <= MAX_AGENT
    && forall p :: p in AGENT_PARENTS ==> exists i :: 0 <= i < k && entries[i].name == p
  }

  /** From `off`, `raw` parses as `entries` and then a trailer that ends at `end`. */
  ghost predicate Chain(raw: Bytes, off: nat, entries: seq<Entry>, end: nat)
    requires off <= |raw|
    decreases |entries|
  {
    var p := ParseEntry(raw, off);
    && p.Parsed?
    && if entries == [] then p.entry.name == TRAILER && p.next == end
       else p.entry == entries[0] && p.entry.name != TRAILER && Chain(raw, p.next, entries[1..], end)
  }

  ghost predicate ZeroFrom(raw: Bytes, off: nat) { off <= |raw| && forall k :: off <= k < |raw| ==> raw[k] == NUL }

  function Names(entries: seq<Entry>): set<Bytes> { set e | e in entries :: e.name }

  function Front(entries: seq<Entry>): seq<Entry>
    requires entries != []
  {
    entries[..|entries| - 1]
  }

  /** No entry is refused when the list is met in order. */
  ghost predicate Unproblematic(entries: seq<Entry>) {
    entries == [] || (Unproblematic(Front(entries)) && Problem(entries[|entries| - 1], Names(Front(entries))) == None)
  }

  ghost function LastAgent(entries: seq<Entry>): Option<Bytes> {
    if entries == [] then None
    else if entries[|entries| - 1].name == AGENT_PATH then Some(entries[|entries| - 1].data)
    else LastAgent(Front(entries))
  }

  lemma Snoc(done: seq<Entry>, e: Entry)
    ensures Front(done + [e]) == done
    ensures Names(done + [e]) == Names(done) + {e.name}
    ensures Unproblematic(done + [e]) <==> Unproblematic(done) && Problem(e, Names(done)) == None
    ensures LastAgent(done + [e]) == if e.name == AGENT_PATH then Some(e.data) else LastAgent(done)
  {
  }

  lemma {:induction false} UnproblematicPrefix(done: seq<Entry>, rest: seq<Entry>)
    requires Unproblematic(done + rest)
    ensures Unproblematic(done)
  {
    if rest == [] {
      assert done + rest == done;
    } else {
      assert Front(done + rest) == done + Front(rest);
      UnproblematicPrefix(done, Front(rest));
    }
  }

  lemma {:induction false} ScanSound(raw: Bytes, off: nat, done: seq<Entry>) returns (rest: seq<Entry>, end: nat)
    requires off <= |raw| && Unproblematic(done) && Scan(raw, off, Names(done), LastAgent(done)).Agent?
    ensures Chain(raw, off, rest, end) && ZeroFrom(raw, end) && Unproblematic(done + rest)
    ensures LastAgent(done + rest) == Some(Scan(raw, off, Names(done), LastAgent(done)).data)
    decreases |raw| - off
  {
    hide ParseEntry, Problem, Unproblematic, Names, LastAgent;
    var p := ParseEntry(raw, off);
    if p.entry.name == TRAILER {
      rest, end := [], p.next;
      assert done + rest == done;
    } else {
      Snoc(done, p.entry);
      assert Scan(raw, off, Names(done), LastAgent(done)) == Scan(raw, p.next, Names(done + [p.entry]), LastAgent(done + [p.entry]));
      var tail;
      tail, end := ScanSound(raw, p.next, done + [p.entry]);
      rest := [p.entry] + tail;
      assert rest[1..] == tail && done + rest == done + [p.entry] + tail;
    }
  }

  lemma {:induction false} ScanComplete(raw: Bytes, off: nat, done: seq<Entry>, rest: seq<Entry>, end: nat)
    requires off <= |raw| && Chain(raw, off, rest, end) && ZeroFrom(raw, end)
    requires Unproblematic(done + rest) && LastAgent(done + rest).Some?
    ensures Scan(raw, off, Names(done), LastAgent(done)) == Agent(LastAgent(done + rest).value)
    decreases |rest|
  {
    hide ParseEntry, Problem;
    if rest == [] {
      assert done + rest == done;
    } else {
      assert done + rest == done + [rest[0]] + rest[1..];
      UnproblematicPrefix(done + [rest[0]], rest[1..]);
      Snoc(done, rest[0]);
      ScanComplete(raw, ParseEntry(raw, off).next, done + [rest[0]], rest[1..], end);
    }
  }

  ghost predicate FitAt(entries: seq<Entry>, i: nat)
    requires i < |entries|
  {
    && Canonical(entries[i].name)
    && (forall j :: 0 <= j < i ==> entries[j].name != entries[i].name)
    && (entries[i].name in AGENT_PARENTS ==> IsDirectory(entries[i].mode))
    && (entries[i].name == AGENT_PATH ==> AgentAt(entries, i, entries[i].data))
  }

  lemma NameBefore(entries: seq<Entry>, i: nat, name: Bytes)
    requires i <= |entries|
    ensures name in Names(entries[..i]) <==> exists j :: 0 <= j < i && entries[j].name == name
  {
    if name in Names(entries[..i]) {
      var e :| e in entries[..i] && e.name == name;
      var j :| 0 <= j < i && entries[..i][j] == e;
      assert entries[j].name == name;
    }
    if j :| 0 <= j < i && entries[j].name == name {
      assert entries[..i][j] in entries[..i];
    }
  }

  lemma ParentsBefore(entries: seq<Entry>, i: nat)
    requires i < |entries| && entries[i].name == AGENT_PATH
    ensures MissingParent(Names(entries[..i]) + {entries[i].name}) == None
       <==> forall p :: p in AGENT_PARENTS ==> exists j :: 0 <= j < i && entries[j].name == p
  {
    forall p | p in AGENT_PARENTS
      ensures p in Names(entries[..i]) <==> exists j :: 0 <= j < i && entries[j].name == p
    {
      NameBefore(entries, i, p);
    }
    assert AGENT_PARENTS[0] in AGENT_PARENTS && AGENT_PARENTS[1] in AGENT_PARENTS && AGENT_PARENTS[2] in AGENT_PARENTS;
  }

  lemma ProblemMeaning(entries: seq<Entry>, i: nat)
    requires i < |entries|
    ensures Problem(entries[i], Names(entries[..i])) == None <==> FitAt(entries, i)
  {
    NameBefore(entries, i, entries[i].name);
    if entries[i].name == AGENT_PATH { ParentsBefore(entries, i); }
  }

  lemma {:induction false} UnproblematicMeaning(entries: seq<Entry>)
    ensures Unproblematic(entries) <==> forall i :: 0 <= i < |entries| ==> FitAt(entries, i)
  {
    hide Problem, Names, Canonical;
    if entries != [] {
      var n := |entries| - 1;
      UnproblematicMeaning(Front(entries));
      ProblemMeaning(entries, n);
      forall i | 0 <= i < n ensures FitAt(Front(entries), i) <==> FitAt(entries, i) {
      }
    }
  }

  lemma {:induction false} LastAgentMeaning(entries: seq<Entry>, k: nat)
    requires forall i, j :: 0 <= i < j < |entries| ==> entries[i].name != entries[j].name
    requires k < |entries| && entries[k].name == AGENT_PATH
    ensures LastAgent(entries) == Some(entries[k].data)
  {
    if k < |entries| - 1 { LastAgentMeaning(Front(entries), k); }
  }

  lemma {:induction false} LastAgentFrom(entries: seq<Entry>) returns (k: nat)
    requires LastAgent(entries).Some?
    ensures k < |entries| && entries[k].name == AGENT_PATH && entries[k].data == LastAgent(entries).value
  {
    if entries[|entries| - 1].name == AGENT_PATH { k := |entries| - 1; }
    else { k := LastAgentFrom(Front(entries)); }
  }

  lemma AcceptableMeaning(entries: seq<Entry>, data: Bytes)
    ensures Acceptable(entries, data) <==> Unproblematic(entries) && LastAgent(entries) == Some(data)
  {
    UnproblematicMeaning(entries);
    if Acceptable(entries, data) {
      var k :| 0 <= k < |entries| && AgentAt(entries, k, data);
      LastAgentMeaning(entries, k);
      forall i | 0 <= i < |entries| ensures FitAt(entries, i) {
        assert entries[i].name == AGENT_PATH ==> i == k;
      }
    }
    if Unproblematic(entries) && LastAgent(entries) == Some(data) {
      var k := LastAgentFrom(entries);
      assert FitAt(entries, k);
      forall i | 0 <= i < |entries| ensures Canonical(entries[i].name) && (entries[i].name in AGENT_PARENTS ==> IsDirectory(entries[i].mode)) {
        assert FitAt(entries, i);
      }
      forall i, j | 0 <= i < j < |entries| ensures entries[i].name != entries[j].name {
        assert FitAt(entries, j);
      }
    }
  }

  lemma ScanMeaningSound(raw: Bytes) returns (entries: seq<Entry>, end: nat)
    requires Scan(raw, 0, {}, None).Agent?
    ensures Chain(raw, 0, entries, end) && ZeroFrom(raw, end) && Acceptable(entries, Scan(raw, 0, {}, None).data)
  {
    assert Names([]) == {};
    entries, end := ScanSound(raw, 0, []);
    assert [] + entries == entries;
    AcceptableMeaning(entries, Scan(raw, 0, {}, None).data);
  }

  lemma ScanMeaningComplete(raw: Bytes, entries: seq<Entry>, end: nat, data: Bytes)
    requires Chain(raw, 0, entries, end) && ZeroFrom(raw, end) && Acceptable(entries, data)
    ensures Scan(raw, 0, {}, None) == Agent(data)
  {
    assert Names([]) == {};
    AcceptableMeaning(entries, data);
    assert [] + entries == entries;
    ScanComplete(raw, 0, [], entries, end);
  }

  // Why an archive is refused.

  /** The type bits of a mode are four above the twelve for permissions. */
  lemma ModeMeaning(mode: nat)
    ensures IsDirectory(mode) <==> exists above: nat, low: nat :: OfType(mode, 4, above, low)
    ensures IsRegular(mode) <==> exists above: nat, low: nat :: OfType(mode, 8, above, low)
  {
    var above, kind, low := mode / 0x10000, mode / 0x1000 % 16, mode % 0x1000;
    assert mode == above * 0x10000 + kind * 0x1000 + low;
    assert OfType(mode, kind, above, low);
    forall k: nat, a: nat, l: nat | k < 16 && OfType(mode, k, a, l) ensures k == kind { SameType(mode, k, a, l); }
  }

  ghost predicate OfType(mode: nat, kind: nat, above: nat, low: nat) { low < 0x1000 && mode == above * 0x10000 + kind * 0x1000 + low }

  lemma SameType(mode: nat, kind: nat, above: nat, low: nat)
    requires kind < 16 && OfType(mode, kind, above, low)
    ensures mode / 0x1000 % 16 == kind
  {
    assert mode / 0x1000 == above * 16 + kind;
  }

  /** The error names something that is wrong with the entry, met after the names in `seen`. */
  ghost predicate Justified(e: Entry, seen: set<Bytes>, error: ScanError) {
    match error
    case NotCanonical(name) => name == e.name && !Canonical(name)
    case Duplicate(name) => name == e.name && name in seen
    case NotDirectory(name) => name == e.name && name in {"usr", "usr/local", "usr/local/bin"} && !IsDirectory(e.mode)
    case NoParent(p) => e.name == "usr/local/bin/lambda-agent" && p in {"usr", "usr/local", "usr/local/bin"} && p !in seen
    case NotRegular => e.name == "usr/local/bin/lambda-agent" && !IsRegular(e.mode)
    case Links(count) => e.name == "usr/local/bin/lambda-agent" && count == e.nlink && count != 1
    case AgentTooLarge => e.name == "usr/local/bin/lambda-agent" && |e.data| > 0x1000_0000
    case _ => false
  }

  lemma ProblemJustified(e: Entry, seen: set<Bytes>)
    requires Problem(e, seen).Some?
    ensures Justified(e, seen, Problem(e, seen).value)
  {
    hide Canonical, IsDirectory, IsRegular;
  }

  /** From `off`, `raw` parses as `entries` and no trailer, up to `end`. */
  ghost predicate Prefix(raw: Bytes, off: nat, entries: seq<Entry>, end: nat)
    requires off <= |raw|
    decreases |entries|
  {
    if entries == [] then off == end
    else
      var p := ParseEntry(raw, off);
      p.Parsed? && p.entry == entries[0] && p.entry.name != TRAILER && Prefix(raw, p.next, entries[1..], end)
  }

  /** What stopped the scan after `done` and then `rest`, at `end`. */
  ghost predicate Stopped(raw: Bytes, end: nat, met: seq<Entry>, error: ScanError)
    requires end <= |raw|
  {
    match ParseEntry(raw, end)
    case Bad(e) => error == AtEntry(end, e)
    case Parsed(e, next) =>
      if e.name != TRAILER then Justified(e, Names(met), error)
      else if error.DataAfterTrailer? then next <= error.off < |raw| && raw[error.off] != NUL && forall k :: next <= k < error.off ==> raw[k] == NUL
      else error == NoAgent && ZeroFrom(raw, next) && forall i :: 0 <= i < |met| ==> met[i].name != AGENT_PATH
  }

  /** A refusal is justified by what stands at the offset the scan had reached, everything before it being in order. */
  lemma {:induction false} ScanRefuses(raw: Bytes, off: nat, done: seq<Entry>) returns (rest: seq<Entry>, end: nat)
    requires off <= |raw| && Unproblematic(done) && Scan(raw, off, Names(done), LastAgent(done)).Rejected?
    ensures end <= |raw| && Prefix(raw, off, rest, end) && Unproblematic(done + rest)
    ensures Stopped(raw, end, done + rest, Scan(raw, off, Names(done), LastAgent(done)).error)
    decreases |raw| - off
  {
    hide ParseEntry, Problem, Unproblematic, Names, LastAgent, Justified;
    var p := ParseEntry(raw, off);
    rest, end := [], off;
    assert done + rest == done;
    if p.Parsed? && p.entry.name != TRAILER {
      if Problem(p.entry, Names(done)).Some? {
        ProblemJustified(p.entry, Names(done));
      } else {
        Snoc(done, p.entry);
        var tail;
        tail, end := ScanRefuses(raw, p.next, done + [p.entry]);
        rest := [p.entry] + tail;
        assert rest[1..] == tail && done + rest == done + [p.entry] + tail;
      }
    } else if p.Parsed? {
      NoAgentMeaning(done);
    }
  }

  lemma {:induction false} NoAgentMeaning(entries: seq<Entry>)
    ensures LastAgent(entries).None? <==> forall i :: 0 <= i < |entries| ==> entries[i].name != AGENT_PATH
  {
    if entries != [] { NoAgentMeaning(Front(entries)); }
  }

  // The same over the bytes themselves.

  function LayAll(ps: seq<Piece>): Bytes { if ps == [] then [] else Lay(ps[0]) + LayAll(ps[1..]) }

  function Entries(ps: seq<Piece>): seq<Entry> { seq(|ps|, i requires 0 <= i < |ps| => ps[i].entry) }

  ghost predicate LaidArchive(ps: seq<Piece>, trailer: Piece) {
    && Laid(trailer) && trailer.entry.name == TRAILER
    && forall i :: 0 <= i < |ps| ==> Laid(ps[i]) && ps[i].entry.name != TRAILER
  }

  lemma LaidLength(p: Piece)
    requires Laid(p)
    ensures |Lay(p)| % 4 == 0
  {
    hide Lay, HasField, IsMagic;
    LaySlices(p);
  }

  /** Laid-out entries and a trailer at an aligned offset are recovered entry by entry. */
  lemma {:induction false} ChainLaid(raw: Bytes, off: nat, ps: seq<Piece>, trailer: Piece)
    requires LaidArchive(ps, trailer) && off % 4 == 0 && off <= |raw|
    requires LayAll(ps) + Lay(trailer) <= raw[off..]
    ensures Chain(raw, off, Entries(ps), off + |LayAll(ps)| + |Lay(trailer)|)
    decreases |ps|
  {
    hide ParseEntry, Laid, Lay;
    var bytes := LayAll(ps) + Lay(trailer);
    if ps == [] {
      assert bytes == Lay(trailer);
      assert raw[off..off + |bytes|] == raw[off..][..|bytes|];
      ParseLaid(raw, off, trailer);
    } else {
      var first, rest := Lay(ps[0]), LayAll(ps[1..]) + Lay(trailer);
      assert bytes == first + rest;
      assert raw[off..off + |first|] == raw[off..][..|first|];
      ParseLaid(raw, off, ps[0]);
      LaidLength(ps[0]);
      assert raw[off + |first|..] == raw[off..][|first|..];
      ChainLaid(raw, off + |first|, ps[1..], trailer);
      assert Entries(ps)[1..] == Entries(ps[1..]);
    }
  }

  /** Bytes that parse as a chain of entries are laid-out entries and a trailer. */
  lemma {:induction false} ChainSound(raw: Bytes, off: nat, entries: seq<Entry>, end: nat) returns (ps: seq<Piece>, trailer: Piece)
    requires off <= |raw| && off % 4 == 0 && Chain(raw, off, entries, end)
    ensures LaidArchive(ps, trailer) && Entries(ps) == entries
    ensures off <= end <= |raw| && raw[off..end] == LayAll(ps) + Lay(trailer)
    decreases |entries|
  {
    hide ParseEntry, Laid, Lay, PieceAt;
    ParseSound(raw, off);
    var p, next := PieceAt(raw, off), ParseEntry(raw, off).next;
    if entries == [] {
      ps, trailer := [], p;
    } else {
      var tail;
      tail, trailer := ChainSound(raw, next, entries[1..], end);
      ps := [p] + tail;
      assert ps[1..] == tail;
      assert raw[off..end] == raw[off..next] + raw[next..end];
    }
  }

  lemma ChainAll(ps: seq<Piece>, trailer: Piece, after: Bytes)
    requires LaidArchive(ps, trailer)
    ensures Chain(LayAll(ps) + Lay(trailer) + after, 0, Entries(ps), |LayAll(ps) + Lay(trailer)|)
  {
    hide LaidArchive, LayAll, Lay, Chain, Entries;
    var raw := LayAll(ps) + Lay(trailer) + after;
    assert raw[0..] == raw;
    ChainLaid(raw, 0, ps, trailer);
  }

  ghost predicate AcceptableArchive(raw: Bytes, ps: seq<Piece>, trailer: Piece, zeros: Bytes, data: Bytes) {
    && raw == LayAll(ps) + Lay(trailer) + zeros
    && LaidArchive(ps, trailer) && Acceptable(Entries(ps), data)
    && forall i :: 0 <= i < |zeros| ==> zeros[i] == NUL
  }

  /** The scan returns `data` exactly for laid-out acceptable entries, a trailer and zero bytes after it. */
  lemma ArchivedAgentMeaning(raw: Bytes, data: Bytes)
    ensures Scan(raw, 0, {}, None) == Agent(data) <==> exists ps, trailer, zeros :: AcceptableArchive(raw, ps, trailer, zeros, data)
  {
    hide Scan, Chain, Acceptable, LaidArchive;
    if Scan(raw, 0, {}, None) == Agent(data) {
      var entries, end := ScanMeaningSound(raw);
      var ps, trailer := ChainSound(raw, 0, entries, end);
      assert raw == raw[0..end] + raw[end..];
      assert AcceptableArchive(raw, ps, trailer, raw[end..], data);
    }
    if ps, trailer, zeros :| AcceptableArchive(raw, ps, trailer, zeros, data) {
      var end := |LayAll(ps) + Lay(trailer)|;
      ChainAll(ps, trailer, zeros);
      assert forall k :: end <= k < |raw| ==> raw[k] == zeros[k - end];
      ScanMeaningComplete(raw, Entries(ps), end, data);
    }
  }

  /** A name is canonical when it is "." or slash-separated components, none of them empty, "." or "..". */
  lemma CanonicalMeaning(name: string)
    ensures Canonical(name) <==> name == "." || exists cs :: Plain(cs) && name == Join(cs)
  {
    var cs := Split(name);
    SplitPieces(name);
    JoinSplit(name);
    if Canonical(name) && name != "." {
      forall i | 0 <= i < |cs| ensures PlainPart(cs[i]) { assert cs[i] in cs; }
      assert Plain(cs) && name == Join(cs);
    }
    if ds :| Plain(ds) && name == Join(ds) {
      SplitJoin(ds);
      assert name == Join([ds[0]] + ds[1..]);
      JoinStart(ds);
      forall c | c in cs ensures c != "" && c != "." && c != ".." {
        var i :| 0 <= i < |ds| && ds[i] == c;
        assert PlainPart(ds[i]);
      }
    }
  }

  predicate PlainPart(c: string) { c != "" && c != "." && c != ".." && NoSlash(c) }

  predicate Plain(cs: seq<string>) { |cs| >= 1 && forall i :: 0 <= i < |cs| ==> PlainPart(cs[i]) }

  lemma JoinStart(cs: seq<string>)
    requires Plain(cs)
    ensures Join(cs) != "" && Join(cs)[0] != '/'
  {
    assert PlainPart(cs[0]);
    assert Join(cs)[0] == cs[0][0];
  }

  // Every legal entry has a layout.

  function HexChar(d: nat): (c: Byte)
    requires d < 16
    ensures IsHex(c) && HexDigit(c) == d
  {
    "0123456789abcdef"[d]
  }

  function Hex(n: nat, width: nat): (s: Bytes)
    ensures |s| == width && AllHex(s)
  {
    if width == 0 then [] else Hex(n / 16, width - 1) + [HexChar(n % 16)]
  }

  function Pow16(k: nat): nat { if k == 0 then 1 else 16 * Pow16(k - 1) }

  lemma {:induction false} HexRoundTrip(n: nat, width: nat)
    requires n < Pow16(width)
    ensures HexValue(Hex(n, width)) == n
  {
    if width > 0 {
      HexRoundTrip(n / 16, width - 1);
      assert Hex(n, width)[..width - 1] == Hex(n / 16, width - 1);
    }
  }

  ghost predicate Legal(e: Entry) {
    && 1 <= |e.name| < MAX_NAME && NUL !in e.name
    && e.mode < 0x1_0000_0000 && e.nlink < 0x1_0000_0000 && |e.data| < 0x1_0000_0000
  }

  function MakeHeader(e: Entry): (h: Bytes)
    ensures |h| == HEADER
  {
    "070701" + Hex(0, 8) + Hex(e.mode, 8) + Hex(0, 16) + Hex(e.nlink, 8) + Hex(0, 8) + Hex(|e.data|, 8)
    + Hex(0, 32) + Hex(|e.name| + 1, 8) + Hex(0, 8)
  }

  function Zeros(n: nat): Bytes { seq(n, _ => NUL) }

  function MakePiece(e: Entry): Piece {
    Piece(MakeHeader(e), e, Zeros(Align4(HEADER + |e.name| + 1) - (HEADER + |e.name| + 1)), Zeros(Align4(|e.data|) - |e.data|))
  }

  lemma Pow16Eight()
    ensures Pow16(8) == 0x1_0000_0000
  {
    assert Pow16(4) == 0x1_0000;
    assert Pow16(6) == 0x100_0000;
  }

  lemma MiddleSlice(a: Bytes, b: Bytes, c: Bytes)
    ensures (a + b + c)[|a|..|a| + |b|] == b
  {
  }

  lemma MadeFields(e: Entry)
    ensures MakeHeader(e)[..6] == "070701"
    ensures FieldText(MakeHeader(e), 1) == Hex(e.mode, 8) && FieldText(MakeHeader(e), 4) == Hex(e.nlink, 8)
    ensures FieldText(MakeHeader(e), 6) == Hex(|e.data|, 8) && FieldText(MakeHeader(e), 11) == Hex(|e.name| + 1, 8)
  {
    hide Hex, FieldText, MakeHeader;
    MadeFront(e);
    MadeBack(e);
  }

  lemma MadeFront(e: Entry)
    ensures MakeHeader(e)[..6] == "070701"
    ensures FieldText(MakeHeader(e), 1) == Hex(e.mode, 8) && FieldText(MakeHeader(e), 4) == Hex(e.nlink, 8)
  {
    hide Hex;
    var toMode := "070701" + Hex(0, 8);
    var toLinks := toMode + Hex(e.mode, 8) + Hex(0, 16);
    var afterLinks := Hex(0, 8) + Hex(|e.data|, 8) + (Hex(0, 32) + Hex(|e.name| + 1, 8) + Hex(0, 8));
    var afterMode := Hex(0, 16) + Hex(e.nlink, 8) + afterLinks;
    assert MakeHeader(e) == toLinks + Hex(e.nlink, 8) + afterLinks;
    assert MakeHeader(e) == toMode + Hex(e.mode, 8) + afterMode;
    MiddleSlice(toMode, Hex(e.mode, 8), afterMode);
    MiddleSlice(toLinks, Hex(e.nlink, 8), afterLinks);
  }

  lemma MadeBack(e: Entry)
    ensures FieldText(MakeHeader(e), 6) == Hex(|e.data|, 8) && FieldText(MakeHeader(e), 11) == Hex(|e.name| + 1, 8)
  {
    hide Hex;
    var toSize := "070701" + Hex(0, 8) + Hex(e.mode, 8) + Hex(0, 16) + Hex(e.nlink, 8) + Hex(0, 8);
    var toName := toSize + Hex(|e.data|, 8) + Hex(0, 32);
    var afterSize := Hex(0, 32) + Hex(|e.name| + 1, 8) + Hex(0, 8);
    assert MakeHeader(e) == toName + Hex(|e.name| + 1, 8) + Hex(0, 8);
    assert MakeHeader(e) == toSize + Hex(|e.data|, 8) + afterSize;
    MiddleSlice(toSize, Hex(|e.data|, 8), afterSize);
    MiddleSlice(toName, Hex(|e.name| + 1, 8), Hex(0, 8));
  }

  lemma MadeHeader(e: Entry)
    requires Legal(e)
    ensures LaidHeader(MakeHeader(e), Fields(e.mode, e.nlink, |e.data|, |e.name| + 1))
  {
    MadeFields(e);
    hide FieldText, MakeHeader, Hex, HexValue, Pow16;
    Pow16Eight();
    HexRoundTrip(e.mode, 8);
    HexRoundTrip(e.nlink, 8);
    HexRoundTrip(|e.data|, 8);
    HexRoundTrip(|e.name| + 1, 8);
  }

  /** Writing a legal entry in newc form and parsing it gives the entry back. */
  lemma MakePieceLaid(e: Entry)
    requires Legal(e)
    ensures Laid(MakePiece(e))
    ensures ParseEntry(Lay(MakePiece(e)), 0) == Parsed(e, |Lay(MakePiece(e))|)
  {
    hide LaidHeader, MakeHeader, ParseEntry, Lay;
    MadeHeader(e);
    var lay := Lay(MakePiece(e));
    assert lay[0..|lay|] == lay;
    ParseLaid(lay, 0, MakePiece(e));
  }

  // Writing a whole archive.

  const TRAILER_ENTRY := Entry(TRAILER, 0, 1, [])

  function MakePieces(es: seq<Entry>): seq<Piece> { seq(|es|, i requires 0 <= i < |es| => MakePiece(es[i])) }

  function MakeArchive(es: seq<Entry>): Bytes { LayAll(MakePieces(es)) + Lay(MakePiece(TRAILER_ENTRY)) }

  ghost predicate Writable(es: seq<Entry>) { forall i :: 0 <= i < |es| ==> Legal(es[i]) && es[i].name != TRAILER }

  lemma MadeLaid(es: seq<Entry>)
    requires Writable(es)
    ensures LaidArchive(MakePieces(es), MakePiece(TRAILER_ENTRY)) && Entries(MakePieces(es)) == es
  {
    hide Laid, Lay, MakeHeader, ParseEntry;
    MakePieceLaid(TRAILER_ENTRY);
    forall i | 0 <= i < |es| ensures Laid(MakePiece(es[i])) { MakePieceLaid(es[i]); }
  }

  /** A list of legal entries written one after another is recovered entry by entry, whatever follows the trailer. */
  lemma MadeArchiveChain(es: seq<Entry>, after: Bytes)
    requires Writable(es)
    ensures Chain(MakeArchive(es) + after, 0, es, |MakeArchive(es)|)
  {
    hide LaidArchive, LayAll, Lay, MakePiece, MakePieces, Chain, Writable, Entries;
    MadeLaid(es);
    ChainAll(MakePieces(es), MakePiece(TRAILER_ENTRY), after);
  }

  lemma {:induction false} ChainUnique(raw: Bytes, off: nat, a: seq<Entry>, b: seq<Entry>, i: nat, j: nat)
    requires off <= |raw| && Chain(raw, off, a, i) && Chain(raw, off, b, j)
    ensures a == b && i == j
    decreases |a|
  {
    hide ParseEntry;
    if a != [] {
      ChainUnique(raw, ParseEntry(raw, off).next, a[1..], b[1..], i, j);
      assert a == [a[0]] + a[1..] && b == [b[0]] + b[1..];
    }
  }

  /** A written archive, padded with zeros, yields the agent exactly when its list of entries is acceptable. */
  lemma MadeArchiveMeaning(es: seq<Entry>, padding: nat, data: Bytes)
    requires Writable(es)
    ensures Scan(MakeArchive(es) + Zeros(padding), 0, {}, None) == Agent(data) <==> Acceptable(es, data)
  {
    hide Scan, Chain, Acceptable, MakeArchive;
    var raw := MakeArchive(es) + Zeros(padding);
    MadeArchiveChain(es, Zeros(padding));
    if Acceptable(es, data) { ScanMeaningComplete(raw, es, |MakeArchive(es)|, data); }
    if Scan(raw, 0, {}, None) == Agent(data) {
      var entries, end := ScanMeaningSound(raw);
      ChainUnique(raw, 0, es, entries, |MakeArchive(es)|, end);
    }
  }
}
