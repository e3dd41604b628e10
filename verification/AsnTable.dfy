/** The flat table of the items of a DER string (lib/casn/asn.c): count_sub_asns sizes it
    and decode_asn fills it.  Items of definite length only. */
module AsnTable {
  import opened NetworkBytes
  import CasnInteger

  const INTEGER: byte := 2
  const NULL: byte := 5

  predicate IsLong(b: byte) { b % 0x20 == 0x1f }         // ASN_XT_TAG
  predicate IsConstructed(b: byte) { b / 0x20 % 2 == 1 } // ASN_CONSTRUCTED

  // ----- items -----

  /** Items that follow each other at one level. */
  datatype Items = End | Item(ident: seq<byte>, len: seq<byte>, body: Body, rest: Items)

  datatype Body = Primitive(bytes: seq<byte>) | Constructed(inner: Items)

  function Encode(x: Items): seq<byte> {
    match x
    case End => []
    case Item(ident, len, body, rest) => ident + len + Contents(body) + Encode(rest)
  }

  function Contents(b: Body): seq<byte> {
    match b
    case Primitive(bytes) => bytes
    case Constructed(inner) => Encode(inner)
  }

  function Size(x: Items): nat {
    match x
    case End => 0
    case Item(ident, len, body, rest) => |ident| + |len| + BodySize(body) + Size(rest)
  }

  function BodySize(b: Body): nat {
    match b
    case Primitive(bytes) => |bytes|
    case Constructed(inner) => Size(inner)
  }

  lemma {:induction false} SizeIsLength(x: Items)
    ensures |Encode(x)| == Size(x)
  {
    if x.End? {
    } else {
      if x.body.Constructed? {
        SizeIsLength(x.body.inner);
      }
      SizeIsLength(x.rest);
    }
  }

  predicate IsIdent(s: seq<byte>) {
    && s != []
    && if IsLong(s[0]) then
         |s| >= 2 && s[|s| - 1] < 0x80 && forall i :: 1 <= i < |s| - 1 ==> s[i] >= 0x80
       else |s| == 1
  }

  /** The definite forms of a length, minimal or not. */
  predicate IsLength(s: seq<byte>, n: nat) {
    && s != []
    && if s[0] < 0x80 then |s| == 1 && s[0] == n
       else s[0] != 0x80 && |s| == 1 + (s[0] - 0x80) && UInt(s[1..]) == n
  }

  /** decode_asn's checks: an INTEGER must be minimal, a NULL empty. */
  predicate BadPrimitive(typ: byte, bytes: seq<byte>) {
    (typ == INTEGER && CasnInteger.Redundant(bytes)) || (typ == NULL && bytes != [])
  }

  predicate Ok(x: Items) {
    match x
    case End => true
    case Item(ident, len, body, rest) =>
      && IsIdent(ident) && IsLength(len, BodySize(body))
      && IsConstructed(ident[0]) == body.Constructed?
      && (match body case Primitive(bytes) => !BadPrimitive(ident[0], bytes) case Constructed(inner) => Ok(inner))
      && Ok(rest)
  }

  function Count(x: Items): nat {
    match x
    case End => 0
    case Item(_, _, body, rest) => 1 + (if body.Primitive? then 0 else Count(body.inner)) + Count(rest)
  }

  /** A row of the table: where the item starts, the length of its contents, its depth. */
  datatype Row = Row(start: nat, lth: nat, level: nat) | EndMarker

  function Inner(b: Body): Items {
    if b.Primitive? then End else b.inner
  }

  /** From row i on, the rows list the items that start at `at` in preorder: an item, then
      what it holds one level deeper, then what follows it. */
  ghost predicate Lists(rows: seq<Row>, i: nat, x: Items, at: nat, level: nat)
    decreases x
  {
    x.Item? ==>
      && i < |rows| && rows[i] == Row(at, BodySize(x.body), level)
      && (x.body.Constructed? ==> Lists(rows, i + 1, x.body.inner, at + |x.ident| + |x.len|, level + 1))
      && Lists(rows, i + 1 + Count(Inner(x.body)), x.rest, at + |x.ident| + |x.len| + BodySize(x.body), level)
  }

  // ----- the listing seen from the bytes -----

  /** An item by its place: its row, its header's bytes, whether it is constructed, and
      the number of rows it takes. */
  datatype Entry = Entry(start: nat, lth: nat, level: nat, ident: seq<byte>, len: seq<byte>, rows: nat)

  function RowOf(e: Entry): Row {
    Row(e.start, e.lth, e.level)
  }

  function From(e: Entry): nat {
    e.start + |e.ident| + |e.len|
  }

  predicate Holds(e: Entry) {
    e.ident != [] && IsConstructed(e.ident[0])
  }

  /** b has the part at `at`. */
  ghost predicate At(b: seq<byte>, at: nat, part: seq<byte>) {
    at + |part| <= |b| && forall i :: 0 <= i < |part| ==> part[i] == b[at + i]
  }

  ghost predicate Describes(e: Entry, b: seq<byte>) {
    && IsIdent(e.ident) && IsLength(e.len, e.lth)
    && At(b, e.start, e.ident) && At(b, e.start + |e.ident|, e.len)
    && From(e) + e.lth <= |b| && !BadPrimitive(e.ident[0], b[From(e)..From(e) + e.lth])
  }

  ghost predicate AllDescribe(s: seq<Entry>, b: seq<byte>) {
    forall k {:trigger Describes(s[k], b)} :: 0 <= k < |s| ==> Describes(s[k], b)
  }

  /** Entries i..j are of items that follow each other from `at` to `end`, each with its
      inner items behind it. */
  ghost predicate Chain(s: seq<Entry>, i: nat, j: nat, at: nat, end: nat, level: nat)
    decreases j - i
  {
    && i <= j <= |s|
    && if i == j then at == end
       else
         var e := s[i];
         && e.start == at && e.level == level && 1 <= e.rows <= j - i
         && (if Holds(e) then Chain(s, i + 1, i + e.rows, From(e), From(e) + e.lth, level + 1) else e.rows == 1)
         && Chain(s, i + e.rows, j, From(e) + e.lth, end, level)
  }

  // ----- reading an item's header -----

  /** asn_typ. */
  method AsnTyp(b: seq<byte>, at: nat, ghost ident: seq<byte>) returns (typ: byte, from: nat)
    requires IsIdent(ident) && At(b, at, ident)
    ensures typ == ident[0] && from == at + |ident|
  {
    typ := b[at];
    from := at + 1;
    if IsLong(typ) {
      while b[from] >= 0x80
        invariant at + 1 <= from < at + |ident|
        decreases at + |ident| - from
      {
        assert ident[from - at] == b[from];
        from := from + 1;
      }
      assert ident[from - at] == b[from];
      from := from + 1;
    }
  }

  /** asn_set's reading of a definite length. */
  method AsnLength(b: seq<byte>, at: nat, ghost len: seq<byte>, ghost n: nat) returns (from: nat, lth: nat)
    requires IsLength(len, n) && At(b, at, len)
    ensures from == at + |len| && lth == n
  {
    assert forall i :: 0 <= i < |len| ==> len[i] == b[at + i];
    lth := b[at];
    from := at + 1;
    if lth >= 0x80 {
      var ansr := lth - 0x80;
      lth := 0;
      while ansr != 0
        invariant at + 1 <= from <= at + |len| && 0 <= ansr == at + |len| - from
        invariant lth == UInt(len[1..from - at])
        decreases ansr
      {
        assert len[1..from + 1 - at] == len[1..from - at] + [len[from - at]];
        lth := 0x100 * lth + b[from];
        from, ansr := from + 1, ansr - 1;
      }
      assert len[1..|len|] == len[1..];
    }
  }

  /** asn_set on an item of definite length. */
  method AsnSet(b: seq<byte>, at: nat, ghost e: Entry) returns (typ: byte, from: nat, lth: nat)
    requires Describes(e, b) && e.start == at
    ensures typ == e.ident[0] && from == From(e) && lth == e.lth
    ensures from + lth <= |b| && !BadPrimitive(typ, b[from..from + lth])
  {
    typ, from := AsnTyp(b, at, e.ident);
    from, lth := AsnLength(b, from, e.len, e.lth);
  }

  // ----- counting -----

  lemma {:induction false} Forward(s: seq<Entry>, i: nat, j: nat, at: nat, end: nat, level: nat)
    requires Chain(s, i, j, at, end, level)
    ensures at <= end
    decreases j - i
  {
    if i == j {
    } else {
      Forward(s, i + s[i].rows, j, From(s[i]) + s[i].lth, end, level);
    }
  }

  /** In the bytes, an item's header is followed by the next header in preorder, behind
      the contents if the item is primitive. */
  lemma {:induction false} Preorder(s: seq<Entry>, i: nat, j: nat, at: nat, end: nat, level: nat, k: nat)
    requires Chain(s, i, j, at, end, level) && i <= k < j
    ensures From(s[k]) + s[k].lth <= end
    ensures From(s[k]) + (if Holds(s[k]) then 0 else s[k].lth) == if k + 1 < j then s[k + 1].start else end
    decreases j - i
  {
    var e := s[i];
    var next := i + e.rows;
    Forward(s, next, j, From(e) + e.lth, end, level);
    if k == i {
    } else if k >= next {
      Preorder(s, next, j, From(e) + e.lth, end, level, k);
    } else {
      Preorder(s, i + 1, next, From(e), From(e) + e.lth, level + 1, k);
    }
  }

  lemma Inside(b: seq<byte>, s: seq<Entry>, i: nat, j: nat, at: nat, end: nat, level: nat, k: nat)
    requires Chain(s, i, j, at, end, level) && AllDescribe(s, b) && i <= k < j
    ensures s[k].start < From(s[k]) <= From(s[k]) + s[k].lth <= end
  {
    Preorder(s, i, j, at, end, level, k);
    assert Describes(s[k], b);
  }

  /** Some bytes are left if and only if some items are. */
  lemma Progress(b: seq<byte>, s: seq<Entry>, i: nat, j: nat, at: nat, end: nat, level: nat)
    requires Chain(s, i, j, at, end, level) && AllDescribe(s, b)
    ensures i < j <==> at < end
  {
    if i < j {
      Inside(b, s, i, j, at, end, level, i);
    }
  }

  /** From a header to the next. */
  lemma CountStep(b: seq<byte>, s: seq<Entry>, at: nat, end: nat, k: nat)
    requires Chain(s, 0, |s|, at, end, 0) && AllDescribe(s, b) && k < |s|
    ensures Describes(s[k], b)
    ensures From(s[k]) + (if IsConstructed(s[k].ident[0]) then 0 else s[k].lth)
            == if k + 1 < |s| then s[k + 1].start else end
    ensures k + 1 < |s| ==> s[k + 1].start < end
    ensures s[0].rows == |s| ==> From(s[0]) + s[0].lth == end
  {
    Preorder(s, 0, |s|, at, end, 0, k);
    assert Describes(s[k], b);
    if k + 1 < |s| {
      Inside(b, s, 0, |s|, at, end, 0, k + 1);
    }
  }

  /** count_sub_asns on an item of definite length: one flat loop. */
  method CountSubAsns(b: seq<byte>, at: nat, ghost s: seq<Entry>, ghost end: nat) returns (count: nat, c: nat)
    requires s != [] && s[0].rows == |s| && Chain(s, 0, |s|, at, end, 0) && AllDescribe(s, b)
    ensures count == |s| && c == end
  {
    count, c := 0, at;
    var e := at;
    var first := true;
    while first || c < e
      invariant count <= |s| && c == if count < |s| then s[count].start else end
      invariant if first then count == 0 else e == end && (count < |s| ==> c < end)
      decreases |s| - count, first
    {
      CountStep(b, s, at, end, count);
      var typ, lth;
      typ, c, lth := AsnSet(b, c, s[count]);
      count := count + 1;
      if first {
        e := c + lth;
        first := false;
      }
      if !IsConstructed(typ) {
        c := c + lth;
      }
    }
  }

  // ----- the table -----

  /** Rows asnp.. of the table are entries i..j. */
  ghost predicate Filled(table: array<Row>, asnp: nat, s: seq<Entry>, i: nat, j: nat)
    requires i <= j <= |s| && asnp + j - i <= table.Length
    reads table
  {
    forall k :: i <= k < j ==> table[asnp + k - i] == RowOf(s[k])
  }

  /** decode_asn's loop body on the entry in row `curr`: its header, then the contents;
      `last` is the last row used, and `size` the item's length with its header. */
  method DecodeItem(table: array<Row>, curr: nat, limit: nat, b: seq<byte>, from: nat, left: nat, level: nat,
                    ghost s: seq<Entry>, ghost i: nat)
    returns (failed: bool, size: nat, last: nat)
    requires AllDescribe(s, b) && i < |s| && s[i].start == from && s[i].level == level
    requires 1 <= s[i].rows <= |s| - i && From(s[i]) + s[i].lth <= from + left
    requires if Holds(s[i]) then Chain(s, i + 1, i + s[i].rows, From(s[i]), From(s[i]) + s[i].lth, level + 1)
             else s[i].rows == 1
    requires curr + s[i].rows < table.Length && curr + s[i].rows <= limit <= table.Length
    modifies table
    ensures !failed && from + size == From(s[i]) + s[i].lth && last == curr + s[i].rows - 1
    ensures Filled(table, curr, s, i, i + s[i].rows)
    ensures forall k :: 0 <= k < table.Length && !(curr <= k <= last) ==> table[k] == old(table[k])
    decreases s[i].rows, 0
  {
    failed, size, last := false, 0, curr;
    if curr >= limit {
      failed := true;
    } else {
      assert Describes(s[i], b);
      var typ, next, lth := AsnSet(b, from, s[i]);
      table[curr] := Row(from, lth, level);
      if next - from + lth > left || BadPrimitive(typ, b[next..next + lth]) {
        failed := true;
      } else {
        var ansr := lth;
        if IsConstructed(typ) {
          ansr := 0;
          Progress(b, s, i + 1, i + s[i].rows, next, next + lth, level + 1);
          if lth != 0 {
            ansr, last := DecodeAsn(table, curr + 1, limit, b, next, lth, level + 1, s, i + 1, i + s[i].rows);
          }
        } else if typ == NULL {
          ansr := 0;
        }
        failed, size := ansr < 0 || next - from + ansr > left, next - from + ansr;
      }
    }
  }

  /** decode_asn on items of definite length. */
  method DecodeAsn(table: array<Row>, asnp: nat, limit: nat, b: seq<byte>, start: nat, nbytes: nat, level: nat,
                   ghost s: seq<Entry>, ghost i: nat, ghost j: nat)
    returns (did: int, last: nat)
    requires nbytes > 0 && Chain(s, i, j, start, start + nbytes, level) && AllDescribe(s, b)
    requires asnp + j - i < table.Length && asnp + j - i <= limit <= table.Length
    modifies table
    ensures did == nbytes && last == asnp + j - i - (if level == 0 then 0 else 1)
    ensures Filled(table, asnp, s, i, j)
    ensures level == 0 ==> table[last] == EndMarker
    ensures forall k :: 0 <= k < table.Length && !(asnp <= k <= last) ==> table[k] == old(table[k])
    decreases j - i, 1
  {
    ghost var k := i;
    var curr, from := asnp, start;
    did, last := 0, asnp;
    while nbytes > did
      invariant 0 <= did <= nbytes && from == start + did
      invariant i <= k <= j && curr == asnp + k - i && Chain(s, k, j, from, start + nbytes, level)
      invariant if k == i then did == 0 else last == curr - 1
      invariant Filled(table, asnp, s, i, k)
      invariant forall m :: 0 <= m < table.Length && !(asnp <= m < curr) ==> table[m] == old(table[m])
      decreases nbytes - did
    {
      Progress(b, s, k, j, from, start + nbytes, level);
      Inside(b, s, k, j, from, start + nbytes, level, k);
      var failed, size;
      failed, size, last := DecodeItem(table, curr, limit, b, from, nbytes - did, level, s, k);
      if failed {
        did := -1;
        break;
      }
      from, did, curr := from + size, did + size, last + 1;
      k := k + s[k].rows;
    }
    if did >= 0 {
      Progress(b, s, k, j, from, start + nbytes, level);
    }
    if did >= 0 && level == 0 {
      last := last + 1;
      table[last] := EndMarker;
    }
  }

  // ----- from items to entries -----

  function EntryOf(x: Items, at: nat, level: nat): Entry
    requires x.Item?
  {
    Entry(at, BodySize(x.body), level, x.ident, x.len, 1 + Count(Inner(x.body)))
  }

  /** The entries from index i on are those of the items. */
  ghost predicate Models(s: seq<Entry>, i: nat, x: Items, at: nat, level: nat)
    decreases x
  {
    x.Item? ==>
      var e := EntryOf(x, at, level);
      && i < |s| && s[i] == e
      && (x.body.Constructed? ==> Models(s, i + 1, x.body.inner, From(e), level + 1))
      && Models(s, i + e.rows, x.rest, From(e) + e.lth, level)
  }

  /** s has the part at index d. */
  ghost predicate Part(s: seq<Entry>, d: nat, part: seq<Entry>) {
    d + |part| <= |s| && forall k {:trigger part[k]} :: 0 <= k < |part| ==> part[k] == s[d + k]
  }

  lemma {:induction false} ModelsShift(p: seq<Entry>, s: seq<Entry>, d: nat, i: nat, x: Items, at: nat, level: nat)
    requires Models(p, i, x, at, level) && Part(s, d, p)
    ensures Models(s, d + i, x, at, level)
    decreases x
  {
    if x.End? {
    } else {
      var e := EntryOf(x, at, level);
      if x.body.Constructed? {
        ModelsShift(p, s, d, i + 1, x.body.inner, From(e), level + 1);
      }
      ModelsShift(p, s, d, i + e.rows, x.rest, From(e) + e.lth, level);
      assert s[d + i] == p[i];
    }
  }

  lemma Concat(e: Entry, p: seq<Entry>, q: seq<Entry>) returns (s: seq<Entry>)
    ensures |s| == 1 + |p| + |q| && s[0] == e && Part(s, 1, p) && Part(s, 1 + |p|, q)
  {
    s := [e] + p + q;
    assert forall k :: 0 <= k < |p| ==> p[k] == s[1 + k];
    assert forall k :: 0 <= k < |q| ==> q[k] == s[1 + |p| + k];
  }

  lemma {:induction false} Build(x: Items, at: nat, level: nat) returns (s: seq<Entry>)
    ensures |s| == Count(x) && Models(s, 0, x, at, level)
    decreases x
  {
    if x.End? {
      s := [];
    } else {
      var e, inner := EntryOf(x, at, level), [];
      if x.body.Constructed? {
        inner := Build(x.body.inner, From(e), level + 1);
      }
      var rest := Build(x.rest, From(e) + e.lth, level);
      s := Concat(e, inner, rest);
      if x.body.Constructed? {
        ModelsShift(inner, s, 1, 0, x.body.inner, From(e), level + 1);
      }
      ModelsShift(rest, s, 1 + |inner|, 0, x.rest, From(e) + e.lth, level);
    }
  }

  lemma {:induction false} ModelsList(s: seq<Entry>, rows: seq<Row>, i: nat, x: Items, at: nat, level: nat)
    requires Models(s, i, x, at, level) && |s| <= |rows| && forall k :: 0 <= k < |s| ==> rows[k] == RowOf(s[k])
    ensures Lists(rows, i, x, at, level)
    decreases x
  {
    if x.End? {
    } else {
      var e := EntryOf(x, at, level);
      if x.body.Constructed? {
        ModelsList(s, rows, i + 1, x.body.inner, From(e), level + 1);
      }
      ModelsList(s, rows, i + e.rows, x.rest, From(e) + e.lth, level);
    }
  }

  /** The identifiers say which items are constructed. */
  predicate Shaped(x: Items) {
    x.Item? ==>
      && x.ident != [] && IsConstructed(x.ident[0]) == x.body.Constructed?
      && (x.body.Constructed? ==> Shaped(x.body.inner)) && Shaped(x.rest)
  }

  lemma {:induction false} OkIsShaped(x: Items)
    requires Ok(x)
    ensures Shaped(x)
  {
    if x.End? {
    } else {
      if x.body.Constructed? {
        OkIsShaped(x.body.inner);
      }
      OkIsShaped(x.rest);
    }
  }

  lemma {:induction false} ModelsChain(s: seq<Entry>, i: nat, j: nat, x: Items, at: nat, end: nat, level: nat)
    requires Models(s, i, x, at, level) && Shaped(x) && j == i + Count(x) <= |s| && end == at + Size(x)
    ensures Chain(s, i, j, at, end, level)
    decreases x
  {
    if x.End? {
    } else {
      var e := EntryOf(x, at, level);
      var mid, next := i + e.rows, From(e) + e.lth;
      if x.body.Constructed? {
        ModelsChain(s, i + 1, mid, x.body.inner, From(e), next, level + 1);
      }
      ModelsChain(s, mid, j, x.rest, next, end, level);
    }
  }

  lemma Pieces(b: seq<byte>, at: nat, h: seq<byte>, l: seq<byte>, c: seq<byte>, r: seq<byte>)
    requires At(b, at, h + l + c + r)
    ensures At(b, at, h) && At(b, at + |h|, l) && At(b, at + |h| + |l|, c) && At(b, at + |h| + |l| + |c|, r)
  {
    var s := h + l + c + r;
    assert forall i :: 0 <= i < |h| ==> h[i] == s[i];
    assert forall i :: 0 <= i < |l| ==> l[i] == s[|h| + i];
    assert forall i :: 0 <= i < |c| ==> c[i] == s[|h| + |l| + i];
    assert forall i :: 0 <= i < |r| ==> r[i] == s[|h| + |l| + |c| + i];
  }

  /** b has the items' parts from `at` on. */
  ghost predicate Spans(b: seq<byte>, at: nat, x: Items)
    decreases x
  {
    x.Item? ==>
      && At(b, at, x.ident) && At(b, at + |x.ident|, x.len)
      && (match x.body
          case Primitive(bytes) => At(b, at + |x.ident| + |x.len|, bytes)
          case Constructed(inner) => Spans(b, at + |x.ident| + |x.len|, inner))
      && at + |x.ident| + |x.len| + BodySize(x.body) <= |b|
      && Spans(b, at + |x.ident| + |x.len| + BodySize(x.body), x.rest)
  }

  lemma {:induction false} EncodingSpans(b: seq<byte>, at: nat, x: Items)
    requires At(b, at, Encode(x))
    ensures Spans(b, at, x)
    decreases x
  {
    if x.End? {
    } else {
      Pieces(b, at, x.ident, x.len, Contents(x.body), Encode(x.rest));
      if x.body.Constructed? {
        SizeIsLength(x.body.inner);
        EncodingSpans(b, at + |x.ident| + |x.len|, x.body.inner);
      }
      EncodingSpans(b, at + |x.ident| + |x.len| + BodySize(x.body), x.rest);
    }
  }

  lemma FirstDescribed(b: seq<byte>, x: Items, e: Entry)
    requires Ok(x) && x.Item? && Spans(b, e.start, x)
    requires e.ident == x.ident && e.len == x.len && e.lth == BodySize(x.body)
    ensures Describes(e, b)
  {
    assert x.body.Primitive? ==> b[From(e)..From(e) + e.lth] == x.body.bytes;
    assert !IsConstructed(INTEGER) && !IsConstructed(NULL);
  }

  lemma SpansStep(b: seq<byte>, x: Items, e: Entry)
    requires Ok(x) && x.Item? && Spans(b, e.start, x)
    requires e.ident == x.ident && e.len == x.len && e.lth == BodySize(x.body)
    ensures x.body.Constructed? ==> Ok(x.body.inner) && Spans(b, From(e), x.body.inner)
    ensures Ok(x.rest) && Spans(b, From(e) + e.lth, x.rest)
  {
    assert From(e) == e.start + |x.ident| + |x.len|;
  }

  lemma ModelsStep(s: seq<Entry>, i: nat, x: Items, at: nat, level: nat) returns (e: Entry)
    requires Models(s, i, x, at, level) && x.Item?
    ensures e.start == at && e.ident == x.ident && e.len == x.len && e.lth == BodySize(x.body)
    ensures e.rows == 1 + Count(Inner(x.body)) && i < |s| && s[i] == e
    ensures x.body.Constructed? ==> Models(s, i + 1, x.body.inner, From(e), level + 1)
    ensures Models(s, i + e.rows, x.rest, From(e) + e.lth, level)
    ensures Count(x) == e.rows + Count(x.rest)
  {
    e := EntryOf(x, at, level);
  }

  /** Each item's entry is good. */
  ghost predicate Each(good: Entry -> bool, at: nat, x: Items, level: nat)
    decreases x
  {
    x.Item? ==>
      var e := EntryOf(x, at, level);
      && good(e)
      && (x.body.Constructed? ==> Each(good, From(e), x.body.inner, level + 1))
      && Each(good, From(e) + e.lth, x.rest, level)
  }

  ghost function Describing(b: seq<byte>): Entry -> bool {
    e => Describes(e, b)
  }

  lemma FirstIsGood(b: seq<byte>, good: Entry -> bool, x: Items, e: Entry)
    requires Ok(x) && x.Item? && Spans(b, e.start, x) && good == Describing(b)
    requires e.ident == x.ident && e.len == x.len && e.lth == BodySize(x.body)
    ensures good(e)
  {
    FirstDescribed(b, x, e);
  }

  lemma {:induction false} OkIsDescribed(b: seq<byte>, good: Entry -> bool, at: nat, x: Items, level: nat)
    requires Ok(x) && Spans(b, at, x) && good == Describing(b)
    ensures Each(good, at, x, level)
    decreases x, 1
  {
    if x.End? {
    } else {
      var e := EntryOf(x, at, level);
      FirstIsGood(b, good, x, e);
      BodyIsDescribed(b, good, x, e, level);
      SpansStep(b, x, e);
      OkIsDescribed(b, good, From(e) + e.lth, x.rest, level);
      EachStep(good, at, x, level, e);
    }
  }

  lemma {:induction false} BodyIsDescribed(b: seq<byte>, good: Entry -> bool, x: Items, e: Entry, level: nat)
    requires Ok(x) && x.Item? && Spans(b, e.start, x) && good == Describing(b)
    requires e.ident == x.ident && e.len == x.len && e.lth == BodySize(x.body)
    ensures x.body.Constructed? ==> Each(good, From(e), x.body.inner, level + 1)
    decreases x, 0
  {
    SpansStep(b, x, e);
    if x.body.Constructed? {
      OkIsDescribed(b, good, From(e), x.body.inner, level + 1);
    }
  }

  lemma EachStep(good: Entry -> bool, at: nat, x: Items, level: nat, e: Entry)
    requires x.Item? && e == EntryOf(x, at, level) && good(e)
    requires x.body.Constructed? ==> Each(good, From(e), x.body.inner, level + 1)
    requires Each(good, From(e) + e.lth, x.rest, level)
    ensures Each(good, at, x, level)
  {
  }

  lemma {:induction false} EachEntry(good: Entry -> bool, s: seq<Entry>, i: nat, x: Items, at: nat, level: nat, k: nat)
    requires Each(good, at, x, level) && Models(s, i, x, at, level) && i <= k < i + Count(x)
    ensures k < |s| && good(s[k])
    decreases x
  {
    var e := EntryOf(x, at, level);
    if k == i {
    } else if k < i + e.rows {
      EachEntry(good, s, i + 1, x.body.inner, From(e), level + 1, k);
    } else {
      EachEntry(good, s, i + e.rows, x.rest, From(e) + e.lth, level, k);
    }
  }

  /** The entries of an encoding. */
  lemma EntriesOf(b: seq<byte>, x: Items) returns (s: seq<Entry>)
    requires Ok(x) && b == Encode(x)
    ensures |s| == Count(x) && Models(s, 0, x, 0, 0)
    ensures Chain(s, 0, |s|, 0, |b|, 0) && AllDescribe(s, b)
  {
    s := Build(x, 0, 0);
    OkIsShaped(x);
    SizeIsLength(x);
    ModelsChain(s, 0, |s|, x, 0, |b|, 0);
    EncodingSpans(b, 0, x);
    OkIsDescribed(b, Describing(b), 0, x, 0);
    forall k | 0 <= k < |s|
      ensures Describes(s[k], b)
    {
      EachEntry(Describing(b), s, 0, x, 0, 0, k);
    }
  }

  /** Counts, makes room and decodes. */
  method FillTable(b: seq<byte>, ghost s: seq<Entry>) returns (did: int, rows: seq<Row>)
    requires s != [] && s[0].rows == |s| && Chain(s, 0, |s|, 0, |b|, 0) && AllDescribe(s, b)
    ensures did == |b| && |rows| == |s| + 2 && rows[|s|] == EndMarker
    ensures forall k :: 0 <= k < |s| ==> rows[k] == RowOf(s[k])
  {
    Progress(b, s, 0, |s|, 0, |b|, 0);
    var count, _ := CountSubAsns(b, 0, s, |b|);
    count := 1 + count;                         // count_asns
    count := count + 1;
    var table := new Row[count](_ => EndMarker);
    var last;
    did, last := DecodeAsn(table, 0, count, b, 0, |b|, 0, s, 0, |s|);
    rows := table[..];
  }

  /** make_asn_table: the count leaves room for every item and for the end marker, and the
      table lists the items in preorder. */
  method MakeAsnTable(b: seq<byte>, ghost x: Items) returns (did: int, rows: seq<Row>)
    requires x.Item? && x.rest.End? && Ok(x) && b == Encode(x)
    ensures did == |b| && |rows| == Count(x) + 2
    ensures Lists(rows, 0, x, 0, 0) && rows[Count(x)] == EndMarker
  {
    ghost var s := EntriesOf(b, x);
    ghost var e := ModelsStep(s, 0, x, 0, 0);
    did, rows := FillTable(b, s);
    ModelsList(s, rows, 0, x, 0, 0);
  }
}
