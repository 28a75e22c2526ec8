/**
 ISO media boxes (ISO/IEC 14496-12, section 4.2): the scanner that yields payload ranges, the
 printer it undoes, and the separate scan of the top level.
 */
module Boxes {
  import opened Prelude

  const MAX_BOXES: nat := 100_000
  const MIN_FILE: nat := 32
  const MAX_FILE: nat := 268_435_456

  type Kind = kind: seq<Byte> | |kind| == 4 witness [0, 0, 0, 0]

  /** A payload range and the kind of the box around it. */
  datatype Box = Box(first: nat, last: nat, kind: Kind)

  // ---------------------------------------------------------------- big-endian numbers

  function Pow256(k: nat): (p: nat)
    ensures p >= 1
  {
    if k == 0 then 1 else 256 * Pow256(k - 1)
  }

  function Value(bytes: seq<Byte>): nat {
    if bytes == [] then 0 else Value(bytes[..|bytes| - 1]) * 256 + bytes[|bytes| - 1] as nat
  }

  function Encoded(n: nat, width: nat): (bytes: seq<Byte>)
    ensures |bytes| == width
  {
    if width == 0 then [] else Encoded(n / 256, width - 1) + [(n % 256) as Byte]
  }

  lemma {:induction false} ValueOfEncoded(n: nat, width: nat)
    requires n < Pow256(width)
    ensures Value(Encoded(n, width)) == n
  {
    if width > 0 {
      ValueOfEncoded(n / 256, width - 1);
      var bytes := Encoded(n, width);
      assert bytes[..width - 1] == Encoded(n / 256, width - 1);
    }
  }

  lemma {:induction false} EncodedOfValue(bytes: seq<Byte>)
    ensures Encoded(Value(bytes), |bytes|) == bytes && Value(bytes) < Pow256(|bytes|)
  {
    if bytes != [] {
      EncodedOfValue(bytes[..|bytes| - 1]);
    }
  }

  // ---------------------------------------------------------------- the scanner

  /** The header size and whole size of the box at `position`. */
  function HeaderAt(data: seq<Byte>, position: nat, last: nat): (r: Option<(nat, nat)>)
    requires position + 8 <= last <= |data|
    ensures r.Some? ==> 8 <= r.value.0 <= r.value.1 <= last - position
  {
    var length := Value(data[position..position + 4]);
    if length == 1 then
      if last - position < 16 then None
      else
        var large := Value(data[position + 8..position + 16]);
        if 16 <= large <= last - position then Some((16, large)) else None
    else
      var actual := if length == 0 then last - position else length;
      if 8 <= actual <= last - position then Some((8, actual)) else None
  }

  /** All boxes from `position` to `last`, when `count` were yielded before; nothing if the scanner raises. */
  function Scan(data: seq<Byte>, position: nat, last: nat, count: nat): Option<seq<Box>>
    requires last <= |data|
    decreases last - position
  {
    if position >= last then Some([])
    else if count >= MAX_BOXES || last - position < 8 then None
    else
      var header := HeaderAt(data, position, last);
      if header.None? then None
      else
        var rest := Scan(data, position + header.value.1, last, count + 1);
        if rest.None? then None
        else Some([Box(position + header.value.0, position + header.value.1, data[position + 4..position + 8])]
                  + rest.value)
  }

  function Yielded(boxes: seq<Box>, rest: Option<seq<Box>>): Option<seq<Box>> {
    if rest.None? then None else Some(boxes + rest.value)
  }

  /** The box whose header at `position` is `header`. */
  function BoxAt(data: seq<Byte>, position: nat, header: (nat, nat)): Box
    requires position + 8 <= |data|
  {
    Box(position + header.0, position + header.1, data[position + 4..position + 8])
  }

  lemma YieldedMore(boxes: seq<Box>, box: Box, rest: Option<seq<Box>>)
    ensures Yielded(boxes, Yielded([box], rest)) == Yielded(boxes + [box], rest)
  {
    assert rest.Some? ==> boxes + ([box] + rest.value) == (boxes + [box]) + rest.value;
  }

  /** Scanning a box that can be yielded yields it before the rest. */
  lemma ScanOne(data: seq<Byte>, position: nat, last: nat, count: nat, header: (nat, nat))
    requires position < last <= |data| && count < MAX_BOXES && last - position >= 8
    requires HeaderAt(data, position, last) == Some(header)
    ensures Scan(data, position, last, count)
         == Yielded([BoxAt(data, position, header)], Scan(data, position + header.1, last, count + 1))
  {
    hide HeaderAt;
  }

  method ScanBoxes(data: seq<Byte>, first: nat, last: nat) returns (r: Option<seq<Box>>)
    requires last <= |data|
    ensures r == Scan(data, first, last, 0)
  {
    hide HeaderAt, BoxAt;
    var position, count: nat, boxes: seq<Box> := first, 0, [];
    assert Scan(data, first, last, 0).Some? ==> [] + Scan(data, first, last, 0).value == Scan(data, first, last, 0).value;
    while position < last
      invariant count == |boxes|
      invariant Scan(data, first, last, 0) == Yielded(boxes, Scan(data, position, last, count))
      decreases last - position
    {
      if count + 1 > MAX_BOXES || last - position < 8 {
        return None;
      }
      var header := HeaderAt(data, position, last);
      if header.None? {
        return None;
      }
      ScanOne(data, position, last, count, header.value);
      YieldedMore(boxes, BoxAt(data, position, header.value), Scan(data, position + header.value.1, last, count + 1));
      boxes := boxes + [BoxAt(data, position, header.value)];
      count := count + 1;
      position := position + header.value.1;
    }
    assert boxes + [] == boxes;
    return Some(boxes);
  }

  // ---------------------------------------------------------------- the printer

  /** The three ways to write a size: 32 bits, 64 bits, or "to the end" for the last box. */
  datatype Form = Short | Long | ToEnd

  datatype Piece = Piece(form: Form, kind: Kind, payload: seq<Byte>)

  function HeaderSize(form: Form): nat {
    if form.Long? then 16 else 8
  }

  predicate Fits(p: Piece) {
    HeaderSize(p.form) + |p.payload| < Pow256(if p.form.Long? then 8 else 4) || p.form.ToEnd?
  }

  function Header(p: Piece): (bytes: seq<Byte>)
    ensures |bytes| == HeaderSize(p.form)
  {
    match p.form
    case Short => Encoded(8 + |p.payload|, 4) + p.kind
    case Long => Encoded(1, 4) + p.kind + Encoded(16 + |p.payload|, 8)
    case ToEnd => Encoded(0, 4) + p.kind
  }

  function Print(p: Piece): seq<Byte> {
    Header(p) + p.payload
  }

  function PrintAll(pieces: seq<Piece>): seq<Byte> {
    if pieces == [] then [] else Print(pieces[0]) + PrintAll(pieces[1..])
  }

  /** Every size can be written, and only the last box runs to the end. */
  ghost predicate WellFormed(pieces: seq<Piece>) {
    forall i | 0 <= i < |pieces| :: Fits(pieces[i]) && (pieces[i].form.ToEnd? ==> i == |pieces| - 1)
  }

  /** Where the payloads lie when printing starts at `position`. */
  function Ranges(pieces: seq<Piece>, position: nat): (boxes: seq<Box>)
    ensures |boxes| == |pieces|
  {
    if pieces == [] then []
    else
      var past := position + |Print(pieces[0])|;
      [Box(position + HeaderSize(pieces[0].form), past, pieces[0].kind)] + Ranges(pieces[1..], past)
  }

  // ---------------------------------------------------------------- scanning what was printed

  lemma Sizes()
    ensures Pow256(4) == 0x1_0000_0000 && Pow256(8) == 0x1_0000_0000_0000_0000
  {
    assert Pow256(1) == 256 && Pow256(2) == 65_536 && Pow256(3) == 16_777_216 && Pow256(4) == 0x1_0000_0000;
    assert Pow256(5) == 0x100_0000_0000 && Pow256(6) == 0x1_0000_0000_0000 && Pow256(7) == 0x100_0000_0000_0000;
  }

  lemma Within(data: seq<Byte>, position: nat, text: seq<Byte>, from: nat, past: nat)
    requires position + |text| <= |data| && data[position..position + |text|] == text
    requires from <= past <= |text|
    ensures data[position + from..position + past] == text[from..past]
  {
    forall i | 0 <= i < past - from
      ensures data[position + from..position + past][i] == text[from..past][i]
    {
      assert data[position..position + |text|][from + i] == data[position + from + i];
    }
  }

  lemma PrintedHeader(data: seq<Byte>, position: nat, last: nat, p: Piece)
    requires Fits(p) && position + |Print(p)| <= last <= |data|
    requires data[position..position + |Print(p)|] == Print(p)
    requires p.form.ToEnd? ==> position + |Print(p)| == last
    ensures HeaderAt(data, position, last) == Some((HeaderSize(p.form), |Print(p)|))
    ensures data[position + 4..position + 8] == p.kind
  {
    hide Encoded, Value, Pow256;
    var text := Print(p);
    Sizes();
    Within(data, position, text, 0, 4);
    Within(data, position, text, 4, 8);
    assert text[4..8] == p.kind;
    match p.form {
      case Short =>
        assert text[0..4] == Encoded(8 + |p.payload|, 4);
        ValueOfEncoded(8 + |p.payload|, 4);
      case Long =>
        Within(data, position, text, 8, 16);
        assert text[0..4] == Encoded(1, 4) && text[8..16] == Encoded(16 + |p.payload|, 8);
        ValueOfEncoded(1, 4);
        ValueOfEncoded(16 + |p.payload|, 8);
      case ToEnd =>
        assert text[0..4] == Encoded(0, 4);
        ValueOfEncoded(0, 4);
    }
  }

  lemma {:induction false} PrintAllSize(pieces: seq<Piece>)
    ensures |PrintAll(pieces)| >= 8 * |pieces|
  {
    if pieces != [] {
      PrintAllSize(pieces[1..]);
    }
  }

  lemma PrintedApart(data: seq<Byte>, first: nat, last: nat, pieces: seq<Piece>)
    requires first <= last <= |data| && pieces != []
    requires WellFormed(pieces) && data[first..last] == PrintAll(pieces)
    ensures var past := first + |Print(pieces[0])|;
            && past <= last && WellFormed(pieces[1..])
            && data[first..past] == Print(pieces[0]) && data[past..last] == PrintAll(pieces[1..])
            && (pieces[0].form.ToEnd? ==> past == last)
  {
    hide Print;
    var text, all := Print(pieces[0]), PrintAll(pieces);
    assert all[0..|text|] == text && all[|text|..|all|] == PrintAll(pieces[1..]);
    Within(data, first, all, 0, |text|);
    Within(data, first, all, |text|, |all|);
  }

  /** Printed boxes scan back to exactly their payload ranges, unless there are too many of them. */
  lemma {:induction false} ScanPrinted(data: seq<Byte>, first: nat, last: nat, pieces: seq<Piece>, count: nat)
    requires first <= last <= |data| && count <= 100_000
    requires WellFormed(pieces) && data[first..last] == PrintAll(pieces)
    ensures Scan(data, first, last, count)
            == if count + |pieces| <= 100_000 then Some(Ranges(pieces, first)) else None
    decreases |pieces|
  {
    hide HeaderAt, Print;
    PrintAllSize(pieces);
    if pieces != [] && count < MAX_BOXES {
      var past := first + |Print(pieces[0])|;
      PrintedApart(data, first, last, pieces);
      PrintedHeader(data, first, last, pieces[0]);
      ScanPrinted(data, past, last, pieces[1..], count + 1);
    }
  }

  /** The box at `position` as the printer would have written it. */
  function PieceAt(data: seq<Byte>, position: nat, last: nat): Piece
    requires position + 8 <= last <= |data| && HeaderAt(data, position, last).Some?
  {
    var (header, length) := HeaderAt(data, position, last).value;
    var stored := Value(data[position..position + 4]);
    Piece(if stored == 1 then Long else if stored == 0 then ToEnd else Short,
          data[position + 4..position + 8], data[position + header..position + length])
  }

  lemma PieceIsThere(data: seq<Byte>, position: nat, last: nat)
    requires position + 8 <= last <= |data| && HeaderAt(data, position, last).Some?
    ensures var p := PieceAt(data, position, last);
            var (header, length) := HeaderAt(data, position, last).value;
            && Fits(p) && Print(p) == data[position..position + length] && HeaderSize(p.form) == header
            && (p.form.ToEnd? ==> position + length == last)
  {
    hide Encoded, Value, Pow256;
    var p := PieceAt(data, position, last);
    var (header, length) := HeaderAt(data, position, last).value;
    Sizes();
    EncodedOfValue(data[position..position + 4]);
    assert data[position..position + header] + data[position + header..position + length]
        == data[position..position + length];
    assert data[position..position + 8] == data[position..position + 4] + data[position + 4..position + 8];
    if p.form.Long? {
      EncodedOfValue(data[position + 8..position + 16]);
      assert data[position..position + 16] == data[position..position + 8] + data[position + 8..position + 16];
    }
  }

  lemma PrintedTogether(p: Piece, rest: seq<Piece>, data: seq<Byte>, first: nat, past: nat, last: nat)
    requires first <= past <= last <= |data|
    requires Fits(p) && Print(p) == data[first..past] && (p.form.ToEnd? ==> past == last)
    requires WellFormed(rest) && PrintAll(rest) == data[past..last]
    ensures WellFormed([p] + rest) && PrintAll([p] + rest) == data[first..last]
    ensures Ranges([p] + rest, first) == [Box(first + HeaderSize(p.form), past, p.kind)] + Ranges(rest, past)
  {
    hide Print, Fits;
    var pieces := [p] + rest;
    assert pieces[1..] == rest;
    assert data[first..last] == data[first..past] + data[past..last];
    PrintAllSize(rest);
    forall i | 0 <= i < |pieces|
      ensures Fits(pieces[i]) && (pieces[i].form.ToEnd? ==> i == |pieces| - 1)
    {
      if i > 0 {
        assert pieces[i] == rest[i - 1];
      }
    }
  }

  /** Whatever the scanner accepts is what the printer writes for some boxes: none is skipped, cut or overlapped. */
  lemma {:induction false} AcceptedIsPrinted(data: seq<Byte>, first: nat, last: nat, count: nat)
    returns (pieces: seq<Piece>)
    requires first <= last <= |data| && count <= 100_000 && Scan(data, first, last, count).Some?
    ensures WellFormed(pieces) && PrintAll(pieces) == data[first..last] && count + |pieces| <= 100_000
    ensures Scan(data, first, last, count) == Some(Ranges(pieces, first))
    decreases last - first
  {
    hide WellFormed, Fits, Print, HeaderAt;
    if first == last {
      pieces := [];
      NothingPrinted();
    } else {
      var (header, length) := HeaderAt(data, first, last).value;
      var rest := AcceptedIsPrinted(data, first + length, last, count + 1);
      PieceIsThere(data, first, last);
      PrintedTogether(PieceAt(data, first, last), rest, data, first, first + length, last);
      pieces := [PieceAt(data, first, last)] + rest;
    }
  }

  lemma NothingPrinted()
    ensures WellFormed([])
  {
  }

  /** Both directions at once: a range scans exactly when it is a printing of at most 100,000 boxes. */
  lemma ScanExact(data: seq<Byte>, first: nat, last: nat)
    requires first <= last <= |data|
    ensures Scan(data, first, last, 0).Some? <==>
            exists pieces :: WellFormed(pieces) && |pieces| <= 100_000 && PrintAll(pieces) == data[first..last]
  {
    if Scan(data, first, last, 0).Some? {
      var pieces := AcceptedIsPrinted(data, first, last, 0);
    }
    if exists pieces :: WellFormed(pieces) && |pieces| <= 100_000 && PrintAll(pieces) == data[first..last] {
      var pieces :| WellFormed(pieces) && |pieces| <= 100_000 && PrintAll(pieces) == data[first..last];
      ScanPrinted(data, first, last, pieces, 0);
    }
  }

  /** Box after box with its header in front, from one end of the parent to the other. */
  ghost predicate Tiles(boxes: seq<Box>, first: nat, last: nat) {
    if boxes == [] then first >= last
    else
      && (boxes[0].first == first + 8 || boxes[0].first == first + 16)
      && boxes[0].first <= boxes[0].last <= last
      && Tiles(boxes[1..], boxes[0].last, last)
  }

  lemma {:induction false} ScanTiles(data: seq<Byte>, first: nat, last: nat, count: nat)
    requires last <= |data| && Scan(data, first, last, count).Some?
    ensures Tiles(Scan(data, first, last, count).value, first, last)
    decreases last - first
  {
    if first < last {
      var header := HeaderAt(data, first, last).value;
      ScanTiles(data, first + header.1, last, count + 1);
      assert Scan(data, first, last, count).value[1..] == Scan(data, first + header.1, last, count + 1).value;
    }
  }

  /** Tiles lie inside their parent, past its start, and do not overlap. */
  lemma {:induction false} TilesInside(boxes: seq<Box>, first: nat, last: nat, i: nat)
    requires Tiles(boxes, first, last) && i < |boxes|
    ensures first + 8 <= boxes[i].first <= boxes[i].last <= last
    ensures forall j | i < j < |boxes| :: boxes[i].last + 8 <= boxes[j].first
  {
    if i > 0 {
      TilesInside(boxes[1..], boxes[0].last, last, i - 1);
      assert forall j | i < j < |boxes| :: boxes[j] == boxes[1..][j - 1];
    } else {
      forall j | 0 < j < |boxes|
        ensures boxes[0].last + 8 <= boxes[j].first
      {
        TilesInside(boxes[1..], boxes[0].last, last, j - 1);
      }
    }
  }

  // ---------------------------------------------------------------- finding one child

  /** `matches` are the boxes of `kind` among the first `n`, taken from the positions `at`. */
  ghost predicate MatchesUpTo(boxes: seq<Box>, kind: Kind, n: nat, at: seq<nat>, matches: seq<Box>)
    requires n <= |boxes|
  {
    && |at| == |matches|
    && (forall k | 0 <= k < |at| :: at[k] < n && boxes[at[k]] == matches[k] && matches[k].kind == kind)
    && (forall k, l | 0 <= k < l < |at| :: at[k] < at[l])
    && (forall k | 0 <= k < n && boxes[k].kind == kind :: k in at)
  }

  lemma NoMatchYet(boxes: seq<Box>, kind: Kind)
    ensures MatchesUpTo(boxes, kind, 0, [], [])
  {
  }

  lemma OneBoxMore(boxes: seq<Box>, kind: Kind, n: nat, at: seq<nat>, matches: seq<Box>)
    requires n < |boxes| && MatchesUpTo(boxes, kind, n, at, matches)
    ensures if boxes[n].kind == kind then MatchesUpTo(boxes, kind, n + 1, at + [n], matches + [boxes[n]])
            else MatchesUpTo(boxes, kind, n + 1, at, matches)
  {
  }

  /** The box at `k` alone is of `kind`. */
  ghost predicate AloneAt(boxes: seq<Box>, kind: Kind, k: nat) {
    k < |boxes| && boxes[k].kind == kind && forall i | 0 <= i < |boxes| && i != k :: boxes[i].kind != kind
  }

  lemma MatchesDecide(boxes: seq<Box>, kind: Kind, at: seq<nat>, matches: seq<Box>)
    requires MatchesUpTo(boxes, kind, |boxes|, at, matches)
    ensures |matches| == |at|
    ensures |matches| == 0 <==> forall i | 0 <= i < |boxes| :: boxes[i].kind != kind
    ensures |matches| == 1 <==> exists k :: AloneAt(boxes, kind, k)
    ensures |matches| == 1 ==> at[0] < |boxes| && boxes[at[0]] == matches[0] && matches[0].kind == kind
  {
    if |matches| == 1 {
      assert AloneAt(boxes, kind, at[0]);
    }
    if |matches| > 1 {
      assert at[0] < at[1] && boxes[at[0]].kind == kind && boxes[at[1]].kind == kind;
    }
  }

  /**
   `_child`: the one child of a kind. It raises unless the parent scans and holds exactly one, or,
   for an optional child, none; and a child lies inside its parent.
   */
  method Child(data: seq<Byte>, parent: (nat, nat), kind: Kind, optional: bool) returns (r: Option<Option<Box>>)
    requires parent.0 <= parent.1 <= |data|
    ensures var boxes := Scan(data, parent.0, parent.1, 0);
            && (r.Some? && r.value.Some? <==> boxes.Some? && exists k :: AloneAt(boxes.value, kind, k))
            && (r.Some? && r.value.None?
                <==> boxes.Some? && optional && forall i | 0 <= i < |boxes.value| :: boxes.value[i].kind != kind)
            && (r.Some? && r.value.Some? ==>
                  && r.value.value in boxes.value && r.value.value.kind == kind
                  && parent.0 + 8 <= r.value.value.first <= r.value.value.last <= parent.1)
  {
    hide Scan, MatchesUpTo, AloneAt, Tiles;
    var boxes := ScanBoxes(data, parent.0, parent.1);
    if boxes.None? {
      return None;
    }
    var matches: seq<Box> := [];
    ghost var at: seq<nat> := [];
    var i := 0;
    NoMatchYet(boxes.value, kind);
    while i < |boxes.value|
      invariant 0 <= i <= |boxes.value|
      invariant MatchesUpTo(boxes.value, kind, i, at, matches)
    {
      OneBoxMore(boxes.value, kind, i, at, matches);
      if boxes.value[i].kind == kind {
        matches, at := matches + [boxes.value[i]], at + [i];
      }
      i := i + 1;
    }
    MatchesDecide(boxes.value, kind, at, matches);
    if |matches| == 0 && optional {
      return Some(None);
    }
    if |matches| != 1 {
      return None;
    }
    ScanTiles(data, parent.0, parent.1, 0);
    TilesInside(boxes.value, parent.0, parent.1, at[0]);
    return Some(Some(matches[0]));
  }

  // ---------------------------------------------------------------- the top level of a finished file

  function Kinds(boxes: seq<Box>): set<Kind> {
    if boxes == [] then {} else {boxes[0].kind} + Kinds(boxes[1..])
  }

  lemma {:induction false} KindsHas(boxes: seq<Box>, kind: Kind)
    ensures kind in Kinds(boxes) <==> exists i :: 0 <= i < |boxes| && boxes[i].kind == kind
  {
    if boxes != [] {
      KindsHas(boxes[1..], kind);
      if kind in Kinds(boxes[1..]) {
        var i :| 0 <= i < |boxes| - 1 && boxes[1..][i].kind == kind;
        assert boxes[i + 1].kind == kind;
      }
      if exists i :: 0 <= i < |boxes| && boxes[i].kind == kind {
        var i :| 0 <= i < |boxes| && boxes[i].kind == kind;
        assert i > 0 ==> boxes[1..][i - 1].kind == kind;
      }
    }
  }

  lemma NoKinds()
    ensures Kinds([]) == {}
  {
  }

  /** One box more adds its kind to those of the rest. */
  lemma KindsOne(data: seq<Byte>, position: nat, last: nat, count: nat, header: (nat, nat))
    requires position < last <= |data| && count < MAX_BOXES && last - position >= 8
    requires HeaderAt(data, position, last) == Some(header)
    ensures var now, rest := Scan(data, position, last, count), Scan(data, position + header.1, last, count + 1);
            && (now.Some? <==> rest.Some?)
            && (now.Some? ==> Kinds(now.value) == {data[position + 4..position + 8]} + Kinds(rest.value))
  {
    hide HeaderAt, Scan;
    ScanOne(data, position, last, count, header);
    var rest := Scan(data, position + header.1, last, count + 1);
    if rest.Some? {
      assert ([BoxAt(data, position, header)] + rest.value)[1..] == rest.value;
    }
  }

  /** The loop of `_verify_mp4`: the same layouts are accepted as by the scanner, and the same kinds seen. */
  method TopLevelKinds(data: seq<Byte>) returns (r: Option<set<Kind>>)
    ensures r == var boxes := Scan(data, 0, |data|, 0); if boxes.None? then None else Some(Kinds(boxes.value))
  {
    hide Value, Kinds;
    var kinds: set<Kind> := {};
    NoKinds();
    var position, count: nat := 0, 0;
    ghost var whole := Scan(data, 0, |data|, 0);
    while position < |data|
      invariant whole.Some? <==> Scan(data, position, |data|, count).Some?
      invariant whole.Some? ==> Kinds(whole.value) == kinds + Kinds(Scan(data, position, |data|, count).value)
      decreases |data| - position
    {
      count := count + 1;
      if count > MAX_BOXES || |data| - position < 8 {
        return None;
      }
      var length, header: nat := Value(data[position..position + 4]), 8;
      if length == 1 {
        if |data| - position < 16 {
          return None;
        }
        length := Value(data[position + 8..position + 16]);
        header := 16;
      } else if length == 0 {
        length := |data| - position;
      }
      if length < header || length > |data| - position {
        return None;
      }
      KindsOne(data, position, |data|, count - 1, (header, length));
      kinds := kinds + {data[position + 4..position + 8]};
      position := position + length;
    }
    return Some(kinds);
  }

  const FTYP: Kind := [0x66, 0x74, 0x79, 0x70]
  const MOOV: Kind := [0x6d, 0x6f, 0x6f, 0x76]
  const MDAT: Kind := [0x6d, 0x64, 0x61, 0x74]

  lemma {:induction false} RangesKinds(pieces: seq<Piece>, first: nat, i: nat)
    requires i < |pieces|
    ensures Ranges(pieces, first)[i].kind == pieces[i].kind
  {
    if i > 0 {
      RangesKinds(pieces[1..], first + |Print(pieces[0])|, i - 1);
    }
  }

  /** A box of `kind` among those printed. */
  ghost predicate Holds(pieces: seq<Piece>, kind: Kind) {
    exists i | 0 <= i < |pieces| :: pieces[i].kind == kind
  }

  lemma RangesHold(pieces: seq<Piece>, first: nat, kind: Kind)
    ensures kind in Kinds(Ranges(pieces, first)) <==> Holds(pieces, kind)
  {
    hide Ranges, Kinds;
    var boxes := Ranges(pieces, first);
    KindsHas(boxes, kind);
    forall i | 0 <= i < |pieces|
      ensures boxes[i].kind == pieces[i].kind
    {
      RangesKinds(pieces, first, i);
    }
    if Holds(pieces, kind) {
      var i :| 0 <= i < |pieces| && pieces[i].kind == kind;
      assert boxes[i].kind == kind;
    }
  }

  /** The whole of `data` scans only as the printing of some pieces, and that printing fixes the kinds seen. */
  lemma SeenKinds(data: seq<Byte>, kinds: Option<set<Kind>>, pieces: seq<Piece>)
    requires kinds == var boxes := Scan(data, 0, |data|, 0); if boxes.None? then None else Some(Kinds(boxes.value))
    requires WellFormed(pieces) && |pieces| <= 100_000 && PrintAll(pieces) == data
    ensures kinds.Some?
    ensures forall kind: Kind :: kind in kinds.value <==> Holds(pieces, kind)
  {
    hide Scan, Kinds, Ranges, Holds, WellFormed;
    assert data[0..|data|] == data;
    ScanPrinted(data, 0, |data|, pieces, 0);
    forall kind: Kind
      ensures kind in Kinds(Ranges(pieces, 0)) <==> Holds(pieces, kind)
    {
      RangesHold(pieces, 0, kind);
    }
  }

  lemma PrintedWhole(data: seq<Byte>) returns (pieces: seq<Piece>)
    requires Scan(data, 0, |data|, 0).Some?
    ensures WellFormed(pieces) && |pieces| <= 100_000 && PrintAll(pieces) == data
  {
    hide Scan;
    assert data[0..|data|] == data;
    pieces := AcceptedIsPrinted(data, 0, |data|, 0);
  }

  /**
   The container check of `_verify_mp4`, before anything is decoded: a file passes exactly when it is
   between 32 bytes and 256 MiB and a printing of at most 100,000 boxes, with ftyp, moov and mdat among them.
   */
  method Container(data: seq<Byte>) returns (ok: bool)
    ensures ok <==>
            && 32 <= |data| <= 268_435_456
            && exists pieces ::
                 && WellFormed(pieces) && |pieces| <= 100_000 && PrintAll(pieces) == data
                 && Holds(pieces, [0x66, 0x74, 0x79, 0x70]) && Holds(pieces, [0x6d, 0x6f, 0x6f, 0x76])
                 && Holds(pieces, [0x6d, 0x64, 0x61, 0x74])
  {
    hide Scan, Kinds, Holds, WellFormed;
    if !(MIN_FILE <= |data| <= MAX_FILE) {
      return false;
    }
    var kinds := TopLevelKinds(data);
    forall pieces | WellFormed(pieces) && |pieces| <= 100_000 && PrintAll(pieces) == data
      ensures kinds.Some? && forall kind: Kind :: kind in kinds.value <==> Holds(pieces, kind)
    {
      SeenKinds(data, kinds, pieces);
    }
    if kinds.None? {
      return false;
    }
    ghost var pieces := PrintedWhole(data);
    return FTYP in kinds.value && MOOV in kinds.value && MDAT in kinds.value;
  }
}
