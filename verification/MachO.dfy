/**
 * Masking the random parts of a thin Mach-O image in place: LC_UUID payloads and code signatures.
 *
 * The loop reads the bytes it is masking.  The specification parses the original image once; the two
 * agree when every signature lies past the load commands.
 */
module MachO {
  import opened Options

  type Byte = b: int | 0 <= b < 256

  datatype Layout = Layout(little: bool, wide: bool)

  datatype Error = TruncatedHeader | TruncatedCommands | InvalidCommand | InvalidUuid | InvalidSignatureCommand | InvalidSignature

  // Bytes from lo up to hi.
  datatype Region = Region(lo: nat, hi: nat, signature: bool)

  const LC_UUID := 0x1B
  const LC_CODE_SIGNATURE := 0x1D

  function MagicLayout(d: seq<Byte>): Option<Layout> {
    if |d| < 4 then None
    else if d[..4] == [0xCE, 0xFA, 0xED, 0xFE] then Some(Layout(true, false))
    else if d[..4] == [0xCF, 0xFA, 0xED, 0xFE] then Some(Layout(true, true))
    else if d[..4] == [0xFE, 0xED, 0xFA, 0xCE] then Some(Layout(false, false))
    else if d[..4] == [0xFE, 0xED, 0xFA, 0xCF] then Some(Layout(false, true))
    else None
  }

  function Word(d: seq<Byte>, at: nat, little: bool): nat
    requires at + 4 <= |d|
  {
    var b0: int, b1: int, b2: int, b3: int := d[at], d[at+1], d[at+2], d[at+3];
    if little then b0 + 0x100 * b1 + 0x10000 * b2 + 0x1000000 * b3
    else b3 + 0x100 * b2 + 0x10000 * b1 + 0x1000000 * b0
  }

  /** What one load command asks to be masked, and where the next one begins. */
  function Step(d: seq<Byte>, cursor: nat, little: bool): Result<(Option<Region>, nat), Error> {
    if cursor + 8 > |d| then Err(TruncatedCommands)
    else
      var command, size := Word(d, cursor, little), Word(d, cursor + 4, little);
      if size < 8 || cursor + size > |d| then Err(InvalidCommand)
      else if command == LC_UUID then
        if size != 24 then Err(InvalidUuid) else Ok((Some(Region(cursor + 8, cursor + 24, false)), cursor + size))
      else if command == LC_CODE_SIGNATURE then
        if size != 16 then Err(InvalidSignatureCommand)
        else
          var at, length := Word(d, cursor + 8, little), Word(d, cursor + 12, little);
          if at + length > |d| then Err(InvalidSignature)
          else Ok((Some(Region(at, at + length, true)), cursor + size))
      else Ok((None, cursor + size))
  }

  lemma StepBounds(d: seq<Byte>, cursor: nat, little: bool)
    ensures var s := Step(d, cursor, little);
            s.Ok? ==>
              && cursor + 8 <= s.value.1 <= |d|
              && (s.value.0.Some? ==>
                    var r := s.value.0.value;
                    r.lo <= r.hi <= |d| && (!r.signature ==> cursor + 8 == r.lo && r.hi == s.value.1))
  {
  }

  ghost function Zero(d: seq<Byte>, r: Option<Region>): (z: seq<Byte>)
    ensures |z| == |d|
  {
    seq(|d|, i requires 0 <= i < |d| => if r.Some? && r.value.lo <= i < r.value.hi then 0 else d[i])
  }

  // The run: each command is read from what the earlier ones left.
  ghost function InFlight(d: seq<Byte>, cursor: nat, n: nat, little: bool): Result<seq<Byte>, Error>
    decreases n
  {
    if n == 0 then Ok(d)
    else
      var s := Step(d, cursor, little);
      if s.Err? then Err(s.error) else InFlight(Zero(d, s.value.0), s.value.1, n - 1, little)
  }

  // The meaning: the regions of the original image, and where its load commands end.

  ghost function Regions(d: seq<Byte>, cursor: nat, n: nat, little: bool): Result<(seq<Region>, nat), Error>
    decreases n
  {
    if n == 0 then Ok(([], cursor))
    else
      var s := Step(d, cursor, little);
      if s.Err? then Err(s.error)
      else
        var rest := Regions(d, s.value.1, n - 1, little);
        if rest.Err? then rest
        else Ok(((if s.value.0.Some? then [s.value.0.value] else []) + rest.value.0, rest.value.1))
  }

  ghost predicate Inside(i: int, rs: seq<Region>) {
    exists r | r in rs :: r.lo <= i < r.hi
  }

  ghost function Mask(d: seq<Byte>, rs: seq<Region>): (z: seq<Byte>)
    ensures |z| == |d| && forall i | 0 <= i < |d| :: z[i] == if Inside(i, rs) then 0 else d[i]
  {
    seq(|d|, i requires 0 <= i < |d| => if Inside(i, rs) then 0 else d[i])
  }

  ghost predicate SignaturesPast(rs: seq<Region>, end: nat) {
    forall r | r in rs && r.signature :: end <= r.lo
  }

  lemma {:induction false} RegionsFollow(d: seq<Byte>, cursor: nat, n: nat, little: bool)
    requires Regions(d, cursor, n, little).Ok?
    ensures var (rs, end) := Regions(d, cursor, n, little).value;
            && cursor <= end && (cursor <= |d| ==> end <= |d|)
            && forall r | r in rs :: r.lo <= r.hi <= |d| && (!r.signature ==> cursor + 8 <= r.lo && r.hi <= end)
    decreases n
  {
    if n > 0 {
      StepBounds(d, cursor, little);
      RegionsFollow(d, Step(d, cursor, little).value.1, n - 1, little);
    }
  }

  /** The images agree from lo to hi, apart from the regions. */
  ghost predicate Agree(d: seq<Byte>, e: seq<Byte>, lo: nat, hi: nat, rs: seq<Region>) {
    |d| == |e| && forall i | lo <= i < hi && i < |d| && !Inside(i, rs) :: d[i] == e[i]
  }

  lemma SameStep(d: seq<Byte>, e: seq<Byte>, cursor: nat, little: bool)
    requires |d| == |e| && Step(d, cursor, little).Ok?
    requires var (r, next) := Step(d, cursor, little).value;
             forall i | cursor <= i < next && i < |d| && !(r.Some? && !r.value.signature && i >= cursor + 8) :: d[i] == e[i]
    ensures Step(e, cursor, little) == Step(d, cursor, little)
  {
  }

  // What a command leaves outside its own payload lies in no region at all.
  lemma OwnBytes(d: seq<Byte>, cursor: nat, n: nat, little: bool, i: nat)
    requires n > 0 && Regions(d, cursor, n, little).Ok?
    requires SignaturesPast(Regions(d, cursor, n, little).value.0, Regions(d, cursor, n, little).value.1)
    requires var (r, next) := Step(d, cursor, little).value;
             cursor <= i < next && !(r.Some? && !r.value.signature && i >= cursor + 8)
    ensures !Inside(i, Regions(d, cursor, n, little).value.0)
  {
    var (rs, end) := Regions(d, cursor, n, little).value;
    var (r, next) := Step(d, cursor, little).value;
    var (tail, _) := Regions(d, next, n - 1, little).value;
    StepBounds(d, cursor, little);
    RegionsFollow(d, next, n - 1, little);
    forall t | t in rs ensures !(t.lo <= i < t.hi) {
      assert t in tail || (r.Some? && t == r.value);
    }
  }

  /** Images that agree on the load commands, apart from the payloads, have the same regions. */
  lemma {:induction false} SameRegions(d: seq<Byte>, e: seq<Byte>, cursor: nat, n: nat, little: bool)
    requires Regions(d, cursor, n, little).Ok?
    requires var (rs, end) := Regions(d, cursor, n, little).value;
             SignaturesPast(rs, end) && Agree(d, e, cursor, end, rs)
    ensures Regions(e, cursor, n, little) == Regions(d, cursor, n, little)
    decreases n
  {
    if n > 0 {
      var (rs, end) := Regions(d, cursor, n, little).value;
      var (r, next) := Step(d, cursor, little).value;
      var (tail, _) := Regions(d, next, n - 1, little).value;
      StepBounds(d, cursor, little);
      RegionsFollow(d, next, n - 1, little);
      forall i | cursor <= i < next && !(r.Some? && !r.value.signature && i >= cursor + 8) ensures d[i] == e[i] {
        OwnBytes(d, cursor, n, little, i);
      }
      SameStep(d, e, cursor, little);
      TailRegions(d, e, cursor, n, little);
      SameRegions(d, e, next, n - 1, little);
    }
  }

  lemma TailRegions(d: seq<Byte>, e: seq<Byte>, cursor: nat, n: nat, little: bool)
    requires n > 0 && Regions(d, cursor, n, little).Ok?
    requires var (rs, end) := Regions(d, cursor, n, little).value;
             SignaturesPast(rs, end) && Agree(d, e, cursor, end, rs)
    ensures var (r, next) := Step(d, cursor, little).value;
            var (tail, end) := Regions(d, next, n - 1, little).value;
            SignaturesPast(tail, end) && Agree(d, e, next, end, tail)
  {
  }

  /** With every signature past the load commands, the run masks exactly the original regions. */
  lemma {:induction false} RunMasksRegions(d: seq<Byte>, cursor: nat, n: nat, little: bool)
    requires cursor <= |d| && Regions(d, cursor, n, little).Ok?
    requires SignaturesPast(Regions(d, cursor, n, little).value.0, Regions(d, cursor, n, little).value.1)
    ensures InFlight(d, cursor, n, little) == Ok(Mask(d, Regions(d, cursor, n, little).value.0))
    decreases n
  {
    hide *;
    if n == 0 {
      NothingToMask(d, cursor, n, little);
    } else {
      Unfold(d, cursor, n, little);
      var (r, next) := Step(d, cursor, little).value;
      var e := Zero(d, r);
      StepBounds(d, cursor, little);
      NextAgrees(d, cursor, n, little);
      SameRegions(d, e, next, n - 1, little);
      RunMasksRegions(e, next, n - 1, little);
      MaskStep(d, r, Regions(d, next, n - 1, little).value.0);
    }
  }

  lemma NothingToMask(d: seq<Byte>, cursor: nat, n: nat, little: bool)
    requires n == 0
    ensures Regions(d, cursor, n, little) == Ok(([], cursor)) && InFlight(d, cursor, n, little) == Ok(d) && Mask(d, []) == d
  {
  }

  lemma Unfold(d: seq<Byte>, cursor: nat, n: nat, little: bool)
    requires n > 0 && Regions(d, cursor, n, little).Ok?
    ensures var s := Step(d, cursor, little);
            && s.Ok?
            && InFlight(d, cursor, n, little) == InFlight(Zero(d, s.value.0), s.value.1, n - 1, little)
            && Regions(d, s.value.1, n - 1, little).Ok?
            && Regions(d, cursor, n, little).value.0 ==
               (if s.value.0.Some? then [s.value.0.value] else []) + Regions(d, s.value.1, n - 1, little).value.0
  {
  }

  // Masking one command's region changes nothing of the commands that follow.
  lemma NextAgrees(d: seq<Byte>, cursor: nat, n: nat, little: bool)
    requires n > 0 && Regions(d, cursor, n, little).Ok?
    requires SignaturesPast(Regions(d, cursor, n, little).value.0, Regions(d, cursor, n, little).value.1)
    ensures var (r, next) := Step(d, cursor, little).value;
            var (tail, end) := Regions(d, next, n - 1, little).value;
            SignaturesPast(tail, end) && Agree(d, Zero(d, r), next, end, tail)
  {
  }

  lemma MaskStep(d: seq<Byte>, r: Option<Region>, tail: seq<Region>)
    ensures Mask(Zero(d, r), tail) == Mask(d, (if r.Some? then [r.value] else []) + tail)
  {
  }

  // The program.

  function HeaderSize(layout: Layout): (n: nat)
    ensures n >= 20
  {
    if layout.wide then 32 else 28
  }

  method ZeroRange(data: array<Byte>, lo: nat, hi: nat)
    requires lo <= hi <= data.Length
    modifies data
    ensures data[..] == Zero(old(data[..]), Some(Region(lo, hi, false)))
  {
    for k := lo to hi
      invariant forall i | 0 <= i < data.Length :: data[i] == if lo <= i < k then 0 else old(data[i])
    {
      data[k] := 0;
    }
  }

  /** The body of the command loop. */
  method MaskCommand(data: array<Byte>, cursor: nat, little: bool) returns (next: Result<nat, Error>)
    modifies data
    ensures var s := Step(old(data[..]), cursor, little);
            if s.Ok? then next == Ok(s.value.1) && data[..] == Zero(old(data[..]), s.value.0)
            else next == Err(s.error)
    ensures next != Err(TruncatedHeader)
  {
    var d := data[..];
    if cursor + 8 > data.Length {
      return Err(TruncatedCommands);
    }
    var command, commandSize := Word(d, cursor, little), Word(d, cursor + 4, little);
    if commandSize < 8 || cursor + commandSize > data.Length {
      return Err(InvalidCommand);
    }
    if command == LC_UUID {
      if commandSize != 24 {
        return Err(InvalidUuid);
      }
      ZeroRange(data, cursor + 8, cursor + 24);
      assert data[..] == Zero(d, Some(Region(cursor + 8, cursor + 24, false)));
    } else if command == LC_CODE_SIGNATURE {
      if commandSize != 16 {
        return Err(InvalidSignatureCommand);
      }
      var at, length := Word(d, cursor + 8, little), Word(d, cursor + 12, little);
      if at + length > data.Length {
        return Err(InvalidSignature);
      }
      ZeroRange(data, at, at + length);
      assert data[..] == Zero(d, Some(Region(at, at + length, true)));
    } else {
      assert data[..] == Zero(d, None);
    }
    next := Ok(cursor + commandSize);
  }

  // Images, written out from what they contain.

  datatype Command = Uuid(payload: seq<Byte>) | Signature(at: nat, length: nat) | Another(kind: nat, payload: seq<Byte>) {
    ghost predicate Valid() {
      match this
      case Uuid(p) => |p| == 16
      case Signature(at, length) => at < 0x1_0000_0000 && length < 0x1_0000_0000
      case Another(kind, p) => kind < 0x1_0000_0000 && kind != 0x1B && kind != 0x1D && 8 + |p| < 0x1_0000_0000
    }
  }

  ghost function Bytes(n: nat, little: bool): (b: seq<Byte>)
    ensures |b| == 4
  {
    if little then [n % 0x100, n / 0x100 % 0x100, n / 0x10000 % 0x100, n / 0x1000000 % 0x100]
    else [n / 0x1000000 % 0x100, n / 0x10000 % 0x100, n / 0x100 % 0x100, n % 0x100]
  }

  ghost function Encode(c: Command, little: bool): (b: seq<Byte>)
    ensures |b| >= 8
  {
    match c
    case Uuid(p) => Bytes(0x1B, little) + Bytes(24, little) + p
    case Signature(at, length) => Bytes(0x1D, little) + Bytes(16, little) + Bytes(at, little) + Bytes(length, little)
    case Another(kind, p) => Bytes(kind, little) + Bytes(8 + |p|, little) + p
  }

  ghost function EncodeAll(cs: seq<Command>, little: bool): seq<Byte> {
    if cs == [] then [] else Encode(cs[0], little) + EncodeAll(cs[1..], little)
  }

  ghost function Magic(layout: Layout): seq<Byte> {
    if layout.little then [if layout.wide then 0xCF else 0xCE, 0xFA, 0xED, 0xFE]
    else [0xFE, 0xED, 0xFA, if layout.wide then 0xCF else 0xCE]
  }

  /** What is to be masked: the sixteen bytes of each UUID, and the range each signature command names. */
  ghost function MaskedBy(cs: seq<Command>, cursor: nat, little: bool): seq<Region> {
    if cs == [] then []
    else
      (match cs[0]
       case Uuid(_) => [Region(cursor + 8, cursor + 24, false)]
       case Signature(at, length) => [Region(at, at + length, true)]
       case Another(_, _) => [])
      + MaskedBy(cs[1..], cursor + |Encode(cs[0], little)|, little)
  }

  /** At the cursor stand these commands, and their signatures lie from `limit` on. */
  ghost predicate StandsAt(d: seq<Byte>, cursor: nat, cs: seq<Command>, little: bool, limit: nat) {
    && cursor + |EncodeAll(cs, little)| <= limit && cursor + |EncodeAll(cs, little)| <= |d|
    && d[cursor..cursor + |EncodeAll(cs, little)|] == EncodeAll(cs, little)
    && forall c | c in cs :: c.Valid() && (c.Signature? ==> limit <= c.at && c.at + c.length <= |d|)
  }

  ghost function HeaderOf(layout: Layout): nat {
    if layout.wide then 32 else 28
  }

  /** A thin image with n commands, of which these are the first. */
  ghost predicate BeginsWith(d: seq<Byte>, layout: Layout, cs: seq<Command>, n: nat, limit: nat) {
    && HeaderOf(layout) <= |d| && d[..4] == Magic(layout)
    && |cs| <= n < 0x1_0000_0000 && d[16..20] == Bytes(n, layout.little)
    && StandsAt(d, HeaderOf(layout), cs, layout.little, limit)
  }

  /** An image with exactly these commands, whose signatures lie past them. */
  ghost predicate IsImage(d: seq<Byte>, layout: Layout, cs: seq<Command>) {
    BeginsWith(d, layout, cs, |cs|, HeaderOf(layout) + |EncodeAll(cs, layout.little)|)
  }

  /** What stands at the cursor is no command, and why. */
  ghost predicate Malformed(d: seq<Byte>, cursor: nat, little: bool, e: Error) {
    if cursor + 8 > |d| then e == TruncatedCommands
    else exists kind: nat, size: nat :: MalformedCommand(d, cursor, little, kind, size, e)
  }

  ghost predicate MalformedCommand(d: seq<Byte>, cursor: nat, little: bool, kind: nat, size: nat, e: Error) {
    && cursor + 8 <= |d| && kind < 0x1_0000_0000 && size < 0x1_0000_0000
    && d[cursor..cursor+8] == Bytes(kind, little) + Bytes(size, little)
    && if size < 8 || cursor + size > |d| then e == InvalidCommand
       else if kind == 0x1B then size != 24 && e == InvalidUuid
       else
         && kind == 0x1D
         && if size != 16 then e == InvalidSignatureCommand
            else e == InvalidSignature && exists at: nat, length: nat :: NamesTooMuch(d, cursor, little, at, length)
  }

  ghost predicate NamesTooMuch(d: seq<Byte>, cursor: nat, little: bool, at: nat, length: nat) {
    && cursor + 16 <= |d| && at < 0x1_0000_0000 && length < 0x1_0000_0000
    && d[cursor+8..cursor+16] == Bytes(at, little) + Bytes(length, little) && at + length > |d|
  }

  /** An image in which the command after these is malformed, and the signatures before lie past its first words. */
  ghost predicate IsBroken(d: seq<Byte>, layout: Layout, cs: seq<Command>, n: nat, e: Error) {
    var cursor := HeaderOf(layout) + |EncodeAll(cs, layout.little)|;
    BeginsWith(d, layout, cs, n, cursor + 16) && |cs| < n && Malformed(d, cursor, layout.little, e)
  }

  lemma DigitsAddUp(n: nat)
    requires n < 0x1_0000_0000
    ensures n % 0x100 + 0x100 * (n / 0x100 % 0x100) + 0x10000 * (n / 0x10000 % 0x100) + 0x1000000 * (n / 0x1000000 % 0x100) == n
  {
    assert n / 0x10000 == n / 0x100 / 0x100 && n / 0x1000000 == n / 0x10000 / 0x100;
  }

  lemma WordReads(d: seq<Byte>, at: nat, n: nat, little: bool)
    requires n < 0x1_0000_0000 && at + 4 <= |d| && d[at..at+4] == Bytes(n, little)
    ensures Word(d, at, little) == n
  {
    var b := Bytes(n, little);
    assert d[at] == b[0] && d[at+1] == b[1] && d[at+2] == b[2] && d[at+3] == b[3] by {
      assert d[at] == d[at..at+4][0] && d[at+1] == d[at..at+4][1] && d[at+2] == d[at..at+4][2] && d[at+3] == d[at..at+4][3];
    }
    DigitsAddUp(n);
  }

  lemma SliceOf(d: seq<Byte>, at: nat, whole: seq<Byte>, lo: nat, hi: nat)
    requires at + |whole| <= |d| && d[at..at+|whole|] == whole && lo <= hi <= |whole|
    ensures d[at+lo..at+hi] == whole[lo..hi]
  {
    forall i | lo <= i < hi ensures d[at+i] == whole[i] {
      assert d[at..at+|whole|][i] == d[at+i];
    }
  }

  /** A command that stands at the cursor is read for what it is. */
  lemma StepReads(d: seq<Byte>, cursor: nat, c: Command, little: bool)
    requires c.Valid() && cursor + |Encode(c, little)| <= |d| && d[cursor..cursor+|Encode(c, little)|] == Encode(c, little)
    requires c.Signature? ==> c.at + c.length <= |d|
    ensures Step(d, cursor, little) ==
            Ok((match c
                case Uuid(_) => Some(Region(cursor + 8, cursor + 24, false))
                case Signature(at, length) => Some(Region(at, at + length, true))
                case Another(_, _) => None,
                cursor + |Encode(c, little)|))
  {
    hide Bytes, Word;
    var b := Encode(c, little);
    var kind := match c case Uuid(_) => 0x1B case Signature(_, _) => 0x1D case Another(k, _) => k;
    SliceOf(d, cursor, b, 0, 4);
    SliceOf(d, cursor, b, 4, 8);
    assert b[0..4] == Bytes(kind, little) && b[4..8] == Bytes(|b|, little);
    WordReads(d, cursor, kind, little);
    WordReads(d, cursor + 4, |b|, little);
    if c.Signature? {
      SliceOf(d, cursor, b, 8, 12);
      SliceOf(d, cursor, b, 12, 16);
      assert b[8..12] == Bytes(c.at, little) && b[12..16] == Bytes(c.length, little);
      WordReads(d, cursor + 8, c.at, little);
      WordReads(d, cursor + 12, c.length, little);
    }
  }

  lemma EncodesInTurn(cs: seq<Command>, little: bool)
    requires cs != []
    ensures EncodeAll(cs, little) == Encode(cs[0], little) + EncodeAll(cs[1..], little)
  {
  }

  lemma FirstStands(d: seq<Byte>, cursor: nat, cs: seq<Command>, little: bool, limit: nat)
    requires StandsAt(d, cursor, cs, little, limit) && cs != []
    ensures var b := Encode(cs[0], little);
            && cursor + |b| <= |d| && cursor + |b| <= limit && d[cursor..cursor+|b|] == b && cs[0].Valid()
            && (cs[0].Signature? ==> limit <= cs[0].at && cs[0].at + cs[0].length <= |d|)
            && StandsAt(d, cursor + |b|, cs[1..], little, limit)
  {
    hide Encode, EncodeAll;
    EncodesInTurn(cs, little);
    var b, rest := Encode(cs[0], little), EncodeAll(cs[1..], little);
    var all := EncodeAll(cs, little);
    assert all[0..|b|] == b && all[|b|..|all|] == rest;
    SliceOf(d, cursor, all, 0, |b|);
    SliceOf(d, cursor, all, |b|, |all|);
  }

  // Masking the region of one command leaves the later ones standing.
  lemma RestStands(d: seq<Byte>, r: Option<Region>, cursor: nat, cs: seq<Command>, little: bool, limit: nat)
    requires StandsAt(d, cursor, cs, little, limit) && (r.Some? ==> r.value.hi <= cursor || limit <= r.value.lo)
    ensures StandsAt(Zero(d, r), cursor, cs, little, limit)
  {
    hide EncodeAll, Encode;
    var end, z := cursor + |EncodeAll(cs, little)|, Zero(d, r);
    forall i | cursor <= i < end ensures z[i] == d[i] {
    }
    assert z[cursor..end] == d[cursor..end];
  }

  /** Well-formed commands are passed, one after the other, and their bytes masked. */
  lemma {:induction false} RunPasses(d: seq<Byte>, cursor: nat, cs: seq<Command>, n: nat, little: bool, limit: nat)
    requires StandsAt(d, cursor, cs, little, limit) && |cs| <= n
    ensures InFlight(d, cursor, n, little) ==
            InFlight(Mask(d, MaskedBy(cs, cursor, little)), cursor + |EncodeAll(cs, little)|, n - |cs|, little)
    decreases |cs|
  {
    hide StandsAt, Mask, Step, Zero, Encode;
    if cs == [] {
      MaskNothing(d);
    } else {
      FirstStands(d, cursor, cs, little, limit);
      var c := cs[0];
      var next := cursor + |Encode(c, little)|;
      StepReads(d, cursor, c, little);
      var r := Step(d, cursor, little).value.0;
      EncodedLength(c, little);
      RestStands(d, r, next, cs[1..], little, limit);
      RunPasses(Zero(d, r), next, cs[1..], n - 1, little, limit);
      MaskStep(d, r, MaskedBy(cs[1..], next, little));
    }
  }

  lemma EncodedLength(c: Command, little: bool)
    requires c.Valid()
    ensures c.Uuid? ==> |Encode(c, little)| == 24
  {
  }

  lemma MaskNothing(d: seq<Byte>)
    ensures Mask(d, []) == d
  {
  }

  lemma HeaderReads(d: seq<Byte>, layout: Layout, cs: seq<Command>, n: nat, limit: nat)
    requires BeginsWith(d, layout, cs, n, limit)
    ensures MagicLayout(d) == Some(layout) && HeaderSize(layout) == HeaderOf(layout) <= |d| && Word(d, 16, layout.little) == n
  {
    WordReads(d, 16, n, layout.little);
  }

  lemma ImageIsMasked(d: seq<Byte>, layout: Layout, cs: seq<Command>)
    requires IsImage(d, layout, cs)
    ensures MagicLayout(d) == Some(layout) && HeaderSize(layout) == HeaderOf(layout) <= |d|
    ensures InFlight(d, HeaderSize(layout), Word(d, 16, layout.little), layout.little) ==
            Ok(Mask(d, MaskedBy(cs, HeaderOf(layout), layout.little)))
  {
    hide MagicLayout, HeaderSize, Word, StandsAt, Mask, HeaderOf, InFlight, EncodeAll, MaskedBy, Magic, Bytes;
    var limit := HeaderOf(layout) + |EncodeAll(cs, layout.little)|;
    HeaderReads(d, layout, cs, |cs|, limit);
    RunPasses(d, HeaderOf(layout), cs, |cs|, layout.little, limit);
    RunEnd(Mask(d, MaskedBy(cs, HeaderOf(layout), layout.little)), limit, layout.little);
  }

  // The malformed command is still what it was when the run comes to it.
  lemma {:induction false} MaskedElsewhere(d: seq<Byte>, cursor: nat, cs: seq<Command>, little: bool, limit: nat, i: nat)
    requires StandsAt(d, cursor, cs, little, limit) && cursor + |EncodeAll(cs, little)| <= i < limit
    ensures !Inside(i, MaskedBy(cs, cursor, little))
    decreases |cs|
  {
    hide StandsAt, Encode;
    if cs != [] {
      FirstStands(d, cursor, cs, little, limit);
      EncodedLength(cs[0], little);
      var next := cursor + |Encode(cs[0], little)|;
      MaskedElsewhere(d, next, cs[1..], little, limit, i);
      var first := match cs[0]
        case Uuid(_) => [Region(cursor + 8, cursor + 24, false)]
        case Signature(at, length) => [Region(at, at + length, true)]
        case Another(_, _) => [];
      assert MaskedBy(cs, cursor, little) == first + MaskedBy(cs[1..], next, little);
      forall r | r in MaskedBy(cs, cursor, little) ensures !(r.lo <= i < r.hi) {
        assert r in first || r in MaskedBy(cs[1..], next, little);
      }
    }
  }

  lemma StepFails(d: seq<Byte>, cursor: nat, little: bool, e: Error)
    requires Malformed(d, cursor, little, e)
    ensures Step(d, cursor, little) == Err(e)
  {
    hide Bytes, Word;
    if cursor + 8 <= |d| {
      var kind: nat, size: nat :| MalformedCommand(d, cursor, little, kind, size, e);
      TwoWords(d, cursor, little, kind, size);
      if !(size < 8 || cursor + size > |d|) && kind == 0x1D && size == 16 {
        var at: nat, length: nat :| NamesTooMuch(d, cursor, little, at, length);
        TwoWords(d, cursor + 8, little, at, length);
      }
    }
  }

  lemma TwoWords(d: seq<Byte>, cursor: nat, little: bool, m: nat, n: nat)
    requires m < 0x1_0000_0000 && n < 0x1_0000_0000 && cursor + 8 <= |d|
    requires d[cursor..cursor+8] == Bytes(m, little) + Bytes(n, little)
    ensures Word(d, cursor, little) == m && Word(d, cursor + 4, little) == n
  {
    hide Bytes, Word;
    var b := Bytes(m, little) + Bytes(n, little);
    SliceOf(d, cursor, b, 0, 4);
    SliceOf(d, cursor, b, 4, 8);
    assert b[0..4] == Bytes(m, little) && b[4..8] == Bytes(n, little);
    WordReads(d, cursor, m, little);
    WordReads(d, cursor + 4, n, little);
  }

  lemma StillMalformed(d: seq<Byte>, z: seq<Byte>, cursor: nat, little: bool, e: Error)
    requires Malformed(d, cursor, little, e) && |z| == |d|
    requires forall i | cursor <= i < cursor + 16 && i < |d| :: z[i] == d[i]
    ensures Malformed(z, cursor, little, e)
  {
    if cursor + 8 <= |d| {
      var kind: nat, size: nat :| MalformedCommand(d, cursor, little, kind, size, e);
      assert z[cursor..cursor+8] == d[cursor..cursor+8];
      if !(size < 8 || cursor + size > |d|) && kind == 0x1D && size == 16 {
        var at: nat, length: nat :| NamesTooMuch(d, cursor, little, at, length);
        assert z[cursor+8..cursor+16] == d[cursor+8..cursor+16];
        assert NamesTooMuch(z, cursor, little, at, length);
      }
      assert MalformedCommand(z, cursor, little, kind, size, e);
    }
  }

  lemma BrokenFails(d: seq<Byte>, layout: Layout, cs: seq<Command>, n: nat, e: Error)
    requires IsBroken(d, layout, cs, n, e)
    ensures MagicLayout(d) == Some(layout) && HeaderSize(layout) == HeaderOf(layout) <= |d|
    ensures InFlight(d, HeaderSize(layout), Word(d, 16, layout.little), layout.little) == Err(e)
  {
    hide MagicLayout, HeaderSize, Word, StandsAt, Malformed, HeaderOf, Step, Mask, MaskedBy, EncodeAll, InFlight, Magic, Bytes;
    var little, cursor := layout.little, HeaderOf(layout) + |EncodeAll(cs, layout.little)|;
    HeaderReads(d, layout, cs, n, cursor + 16);
    RunPasses(d, HeaderOf(layout), cs, n, little, cursor + 16);
    MaskedStillFails(d, HeaderOf(layout), cs, little, e);
    RunStep(Mask(d, MaskedBy(cs, HeaderOf(layout), little)), cursor, n - |cs|, little);
  }

  lemma MaskedStillFails(d: seq<Byte>, start: nat, cs: seq<Command>, little: bool, e: Error)
    requires StandsAt(d, start, cs, little, start + |EncodeAll(cs, little)| + 16)
    requires Malformed(d, start + |EncodeAll(cs, little)|, little, e)
    ensures Step(Mask(d, MaskedBy(cs, start, little)), start + |EncodeAll(cs, little)|, little) == Err(e)
  {
    hide StandsAt, Malformed, Step, Inside, MaskedBy, EncodeAll;
    var cursor := start + |EncodeAll(cs, little)|;
    var z := Mask(d, MaskedBy(cs, start, little));
    forall i: nat | cursor <= i < cursor + 16 && i < |d| ensures z[i] == d[i] {
      MaskedElsewhere(d, start, cs, little, cursor + 16, i);
    }
    StillMalformed(d, z, cursor, little, e);
    StepFails(z, cursor, little, e);
  }

  /** The bytes of an image put together: header, commands, and whatever comes after. */
  ghost function Image(layout: Layout, head: seq<Byte>, tail: seq<Byte>, cs: seq<Command>, body: seq<Byte>): seq<Byte> {
    Magic(layout) + head + Bytes(|cs|, layout.little) + tail + EncodeAll(cs, layout.little) + body
  }

  /** Every choice of commands and contents is an image, if its signatures lie in the body. */
  lemma ImagesExist(layout: Layout, head: seq<Byte>, tail: seq<Byte>, cs: seq<Command>, body: seq<Byte>)
    requires |head| == 12 && |tail| == (if layout.wide then 12 else 8) && |cs| < 0x1_0000_0000
    requires var d := Image(layout, head, tail, cs, body);
             forall c | c in cs :: c.Valid() && (c.Signature? ==> |d| - |body| <= c.at && c.at + c.length <= |d|)
    ensures IsImage(Image(layout, head, tail, cs, body), layout, cs)
  {
    hide Bytes, Magic, EncodeAll;
    assert |Magic(layout)| == 4 by {
      MagicLength(layout);
    }
    var d, size := Image(layout, head, tail, cs, body), HeaderOf(layout);
    var all := EncodeAll(cs, layout.little);
    assert d[..4] == Magic(layout) && d[16..20] == Bytes(|cs|, layout.little) && d[size..size + |all|] == all;
  }

  lemma MagicLength(layout: Layout)
    ensures |Magic(layout)| == 4
  {
  }

  /** Every access is in bounds on every input; an error leaves off where the original does. */
  method NormalizeMacho(data: array<Byte>) returns (error: Option<Error>)
    modifies data
    ensures MagicLayout(old(data[..])).None? ==> error == None && data[..] == old(data[..])
    ensures MagicLayout(old(data[..])).Some? ==>
              var layout := MagicLayout(old(data[..])).value;
              var d := old(data[..]);
              if HeaderSize(layout) > |d| then error == Some(TruncatedHeader)
              else
                var run := InFlight(d, HeaderSize(layout), Word(d, 16, layout.little), layout.little);
                if run.Ok? then error == None && data[..] == run.value else error == Some(run.error)
    // An image loses the bytes of its UUIDs and signatures and no other; the first malformed command is an error.
    ensures forall layout, cs | IsImage(old(data[..]), layout, cs) ::
              error == None && data[..] == Mask(old(data[..]), MaskedBy(cs, HeaderOf(layout), layout.little))
    ensures forall layout, cs, n: nat, e | IsBroken(old(data[..]), layout, cs, n, e) :: error == Some(e)
    ensures forall layout | HasMagic(old(data[..]), layout) ::
              error == Some(TruncatedHeader) <==> HeaderOf(layout) > |old(data[..])|
    ensures (forall layout :: !HasMagic(old(data[..]), layout)) ==>
              error == None && data[..] == old(data[..])
  {
    hide *;
    Consequences(data[..]);
    var layout := MagicLayout(data[..]);
    if layout.None? {
      return None;
    }
    var size := HeaderSize(layout.value);
    if size > data.Length {
      return Some(TruncatedHeader);
    }
    var little := layout.value.little;
    var count := Word(data[..], 16, little);
    var cursor: nat := size;
    ghost var run := InFlight(data[..], cursor, count, little);
    for done := 0 to count
      invariant InFlight(data[..], cursor, count - done, little) == run
    {
      RunStep(data[..], cursor, count - done, little);
      var next := MaskCommand(data, cursor, little);
      if next.Err? {
        return Some(next.error);
      }
      cursor := next.value;
    }
    RunEnd(data[..], cursor, little);
    error := None;
  }

  ghost predicate HasMagic(d: seq<Byte>, layout: Layout) {
    |d| >= 4 && d[..4] == Magic(layout)
  }

  // The consequences for images, put into the words of the contract.
  lemma Consequences(d: seq<Byte>)
    ensures forall layout, cs | IsImage(d, layout, cs) ::
              && MagicLayout(d) == Some(layout) && HeaderSize(layout) == HeaderOf(layout) <= |d|
              && InFlight(d, HeaderSize(layout), Word(d, 16, layout.little), layout.little) ==
                 Ok(Mask(d, MaskedBy(cs, HeaderOf(layout), layout.little)))
    ensures forall layout, cs, n: nat, e | IsBroken(d, layout, cs, n, e) ::
              && MagicLayout(d) == Some(layout) && HeaderSize(layout) == HeaderOf(layout) <= |d|
              && InFlight(d, HeaderSize(layout), Word(d, 16, layout.little), layout.little) == Err(e)
    ensures forall layout :: HasMagic(d, layout) <==> MagicLayout(d) == Some(layout)
    ensures forall layout :: HeaderSize(layout) == HeaderOf(layout)
  {
    forall layout, cs | IsImage(d, layout, cs)
      ensures MagicLayout(d) == Some(layout) && HeaderSize(layout) == HeaderOf(layout) <= |d|
      ensures InFlight(d, HeaderSize(layout), Word(d, 16, layout.little), layout.little) ==
              Ok(Mask(d, MaskedBy(cs, HeaderOf(layout), layout.little)))
    {
      ImageIsMasked(d, layout, cs);
    }
    forall layout, cs, n: nat, e | IsBroken(d, layout, cs, n, e)
      ensures MagicLayout(d) == Some(layout) && HeaderSize(layout) == HeaderOf(layout) <= |d|
      ensures InFlight(d, HeaderSize(layout), Word(d, 16, layout.little), layout.little) == Err(e)
    {
      BrokenFails(d, layout, cs, n, e);
    }
    forall layout ensures HasMagic(d, layout) <==> MagicLayout(d) == Some(layout) {
      MagicTold(d, layout);
    }
  }

  lemma MagicTold(d: seq<Byte>, layout: Layout)
    ensures HasMagic(d, layout) <==> MagicLayout(d) == Some(layout)
  {
  }

  lemma RunStep(d: seq<Byte>, cursor: nat, n: nat, little: bool)
    requires n > 0
    ensures var s := Step(d, cursor, little);
            InFlight(d, cursor, n, little) ==
            if s.Err? then Err(s.error) else InFlight(Zero(d, s.value.0), s.value.1, n - 1, little)
  {
  }

  lemma RunEnd(d: seq<Byte>, cursor: nat, little: bool)
    ensures InFlight(d, cursor, 0, little) == Ok(d)
  {
  }

  // Main results, for an image whose load commands parse.

  /** A thin image in order: the header fits, the commands parse, and signatures lie past them. */
  ghost predicate Regular(d: seq<Byte>) {
    && MagicLayout(d).Some?
    && var layout := MagicLayout(d).value;
    && HeaderSize(layout) <= |d|
    && var parse := Regions(d, HeaderSize(layout), Word(d, 16, layout.little), layout.little);
    && parse.Ok? && SignaturesPast(parse.value.0, parse.value.1)
  }

  ghost function Random(d: seq<Byte>): seq<Region>
    requires Regular(d)
  {
    var layout := MagicLayout(d).value;
    Regions(d, HeaderSize(layout), Word(d, 16, layout.little), layout.little).value.0
  }

  ghost function Normalized(d: seq<Byte>): Result<seq<Byte>, Error>
    requires Regular(d)
  {
    var layout := MagicLayout(d).value;
    InFlight(d, HeaderSize(layout), Word(d, 16, layout.little), layout.little)
  }

  ghost predicate DifferOnlyIn(d: seq<Byte>, e: seq<Byte>, rs: seq<Region>) {
    |d| == |e| && forall i | 0 <= i < |d| && !Inside(i, rs) :: d[i] == e[i]
  }

  lemma NormalizedIsMask(d: seq<Byte>)
    requires Regular(d)
    ensures Normalized(d) == Ok(Mask(d, Random(d)))
  {
    var layout := MagicLayout(d).value;
    RunMasksRegions(d, HeaderSize(layout), Word(d, 16, layout.little), layout.little);
  }

  /** An image that differs from a regular one in nothing but UUID payloads and signatures normalises to the same bytes. */
  lemma NormalizedAlike(d: seq<Byte>, e: seq<Byte>)
    requires Regular(d) && DifferOnlyIn(d, e, Random(d))
    ensures Regular(e) && Random(e) == Random(d) && Normalized(e) == Normalized(d)
  {
    hide Mask, InFlight, Inside, DifferOnlyIn, Regions, Word, MagicLayout, HeaderSize, Agree, SignaturesPast;
    var layout := MagicLayout(d).value;
    SameHeader(d, e);
    BodyAgrees(d, e, Random(d), HeaderSize(layout), Regions(d, HeaderSize(layout), Word(d, 16, layout.little), layout.little).value.1);
    SameRegions(d, e, HeaderSize(layout), Word(d, 16, layout.little), layout.little);
    NormalizedIsMask(d);
    NormalizedIsMask(e);
    SameMask(d, e, Random(d));
  }

  // No region reaches into the header.
  lemma SameHeader(d: seq<Byte>, e: seq<Byte>)
    requires Regular(d) && DifferOnlyIn(d, e, Random(d))
    ensures MagicLayout(e) == MagicLayout(d) && |e| == |d|
    ensures var little := MagicLayout(d).value.little; Word(e, 16, little) == Word(d, 16, little)
  {
    hide Regions, Mask, InFlight;
    var layout := MagicLayout(d).value;
    var size, n := HeaderSize(layout), Word(d, 16, layout.little);
    RegionsFollow(d, size, n, layout.little);
    forall i | 0 <= i < size ensures d[i] == e[i] {
      assert !Inside(i, Random(d));
    }
    assert d[..4] == e[..4];
  }

  lemma BodyAgrees(d: seq<Byte>, e: seq<Byte>, rs: seq<Region>, lo: nat, hi: nat)
    requires DifferOnlyIn(d, e, rs)
    ensures Agree(d, e, lo, hi, rs)
  {
  }

  lemma SameMask(d: seq<Byte>, e: seq<Byte>, rs: seq<Region>)
    requires DifferOnlyIn(d, e, rs)
    ensures Mask(d, rs) == Mask(e, rs)
  {
    assert |Mask(d, rs)| == |Mask(e, rs)|;
  }

  /** And with the same regions, only such an image does. */
  lemma AlikeOnlyThere(d: seq<Byte>, e: seq<Byte>)
    requires Regular(d) && Regular(e) && Random(d) == Random(e) && Normalized(d) == Normalized(e)
    ensures DifferOnlyIn(d, e, Random(d))
  {
    NormalizedIsMask(d);
    NormalizedIsMask(e);
    assert |d| == |e|;
    forall i | 0 <= i < |d| && !Inside(i, Random(d)) ensures d[i] == e[i] {
      assert Mask(d, Random(d))[i] == Mask(e, Random(e))[i];
    }
  }

  /** Masking keeps the length and every other byte, and masking twice is masking once. */
  lemma NormalizedOnce(d: seq<Byte>)
    requires Regular(d)
    ensures Normalized(d).Ok? && DifferOnlyIn(d, Normalized(d).value, Random(d))
    ensures Regular(Normalized(d).value) && Normalized(Normalized(d).value) == Normalized(d)
  {
    NormalizedIsMask(d);
    NormalizedAlike(d, Mask(d, Random(d)));
  }
}
