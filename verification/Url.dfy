/**
 `http_parser_parse_url` and its two state machines (service-src/http/http_parser.c), in strict mode.
 Characters are bytes. Spans are exact first; the code keeps their offsets and lengths in 16 bits,
 and `WrapsExactly` says when that makes a difference.
 */
module Url {
  import opened Options
  import opened Bytes

  // ---------------------------------------------------------------- character classes

  predicate IsAlpha(c: byte) {
    65 <= c <= 90 || 97 <= c <= 122
  }

  predicate IsNum(c: byte) {
    48 <= c <= 57
  }

  predicate IsAlphaNum(c: byte) {
    IsAlpha(c) || IsNum(c)
  }

  predicate IsHexDigit(c: byte) {
    IsNum(c) || 65 <= c <= 70 || 97 <= c <= 102
  }

  const SLASH: byte := 47
  const COLON: byte := 58
  const QUESTION: byte := 63
  const HASH: byte := 35
  const AT: byte := 64
  const PERCENT: byte := 37
  const DOT: byte := 46
  const OPEN: byte := 91
  const CLOSE: byte := 93

  /** `IS_USERINFO_CHAR`. */
  predicate IsUserinfoChar(c: byte) {
    || IsAlphaNum(c) || c == 45 || c == 95 || c == DOT || c == 33 || c == 126 || c == 42 || c == 39
    || c == 40 || c == 41
    || c == PERCENT || c == 59 || c == COLON || c == 38 || c == 61 || c == 43 || c == 36 || c == 44
  }

  /** `IS_URL_CHAR`: the printable characters but space, `#` and `?`. */
  predicate IsUrlChar(c: byte) {
    33 <= c <= 126 && c != HASH && c != QUESTION
  }

  /** `IS_HOST_CHAR`. */
  predicate IsHostChar(c: byte) {
    IsAlphaNum(c) || c == DOT || c == 45
  }

  predicate IsZoneChar(c: byte) {
    IsAlphaNum(c) || c == PERCENT || c == DOT || c == 45 || c == 95 || c == 126
  }

  // ---------------------------------------------------------------- parse_url_char

  datatype UrlState =
    | Dead | Before | Schema | SchemaSlash | SchemaSlashSlash | ServerStart | Server | ServerWithAt
    | Path | QueryStart | Query | FragmentStart | Fragment

  datatype Field = SCHEMA | HOST | PORT | PATH | QUERY | FRAGMENT | USERINFO

  function UrlChar(s: UrlState, ch: byte): UrlState {
    if ch == 32 || ch == 13 || ch == 10 || ch == 9 || ch == 12 then Dead
    else match s
      case Before =>
        if ch == SLASH || ch == 42 then Path else if IsAlpha(ch) then Schema else Dead
      case Schema =>
        if IsAlpha(ch) then Schema else if ch == COLON then SchemaSlash else Dead
      case SchemaSlash =>
        if ch == SLASH then SchemaSlashSlash else Dead
      case SchemaSlashSlash =>
        if ch == SLASH then ServerStart else Dead
      case ServerWithAt =>
        if ch == AT then Dead else ServerChar(ch)
      case ServerStart => ServerChar(ch)
      case Server => ServerChar(ch)
      case Path =>
        if IsUrlChar(ch) then Path
        else if ch == QUESTION then QueryStart
        else if ch == HASH then FragmentStart
        else Dead
      case QueryStart => QueryChar(ch)
      case Query => QueryChar(ch)
      case FragmentStart =>
        if IsUrlChar(ch) || ch == QUESTION then Fragment else if ch == HASH then FragmentStart else Dead
      case Fragment =>
        if IsUrlChar(ch) || ch == QUESTION || ch == HASH then Fragment else Dead
      case Dead => Dead
  }

  function ServerChar(ch: byte): UrlState {
    if ch == SLASH then Path
    else if ch == QUESTION then QueryStart
    else if ch == AT then ServerWithAt
    else if IsUserinfoChar(ch) || ch == OPEN || ch == CLOSE then Server
    else Dead
  }

  function QueryChar(ch: byte): UrlState {
    if IsUrlChar(ch) || ch == QUESTION then Query else if ch == HASH then FragmentStart else Dead
  }

  /** The state after a whole prefix. */
  function After(s: UrlState, buf: seq<byte>): UrlState {
    if buf == [] then s else UrlChar(After(s, buf[..|buf| - 1]), buf[|buf| - 1])
  }

  /** The field a byte belongs to when it leads to this state; delimiters belong to none. */
  function FieldOf(s: UrlState): Option<Field> {
    match s
    case Schema => Some(SCHEMA)
    case Server => Some(HOST)
    case ServerWithAt => Some(HOST)
    case Path => Some(PATH)
    case Query => Some(QUERY)
    case Fragment => Some(FRAGMENT)
    case _ => None
  }

  /** The order in which the parts of a URL appear. */
  function Rank(s: UrlState): nat {
    match s
    case Dead => 11
    case Before => 0
    case Schema => 1
    case SchemaSlash => 2
    case SchemaSlashSlash => 3
    case ServerStart => 4
    case Server => 5
    case ServerWithAt => 5
    case Path => 6
    case QueryStart => 7
    case Query => 8
    case FragmentStart => 9
    case Fragment => 10
  }

  /** The machine never goes back to an earlier part. */
  lemma RankGrows(s: UrlState, ch: byte)
    ensures Rank(s) <= Rank(UrlChar(s, ch))
  {
  }

  function FieldRank(f: Field): nat {
    match f
    case SCHEMA => 1
    case HOST => 5
    case PATH => 6
    case QUERY => 8
    case FRAGMENT => 10
    case _ => 12
  }

  lemma RankIsField(s: UrlState, f: Field)
    requires s != Dead
    ensures FieldOf(s) == Some(f) <==> FieldRank(f) == Rank(s)
  {
  }

  // ---------------------------------------------------------------- spans

  datatype Span = Span(off: nat, len: nat)

  const WIDTH := 0x1_0000

  /** A span as the two 16-bit members of `field_data` hold it. */
  function Narrow(sp: Span): Span {
    Span(sp.off % WIDTH, sp.len % WIDTH)
  }

  /** `len++` there. */
  function Longer(sp: Span): Span {
    Span(sp.off, (sp.len + 1) % WIDTH)
  }

  function Narrowed(fields: map<Field, Span>): map<Field, Span> {
    map f | f in fields :: Narrow(fields[f])
  }

  predicate Fits(fields: map<Field, Span>) {
    forall f :: f in fields ==> fields[f].off < WIDTH && fields[f].len < WIDTH
  }

  lemma NarrowLonger(sp: Span)
    ensures Narrow(Span(sp.off, sp.len + 1)) == Longer(Narrow(sp))
  {
  }

  lemma NarrowedUpdate(fields: map<Field, Span>, f: Field, sp: Span)
    ensures Narrowed(fields[f := sp]) == Narrowed(fields)[f := Narrow(sp)]
  {
  }

  lemma FitsStays(fields: map<Field, Span>)
    ensures Fits(fields) <==> Narrowed(fields) == fields
    ensures Fits(Narrowed(fields))
  {
    if Fits(fields) {
      forall f | f in fields
        ensures Narrowed(fields)[f] == fields[f]
      {
      }
    } else {
      var f :| f in fields && !(fields[f].off < WIDTH && fields[f].len < WIDTH);
      assert Narrowed(fields)[f] != fields[f];
    }
  }

  predicate Within(sp: Span, j: nat) {
    sp.off <= j < sp.off + sp.len
  }

  function StartState(isConnect: bool): UrlState {
    if isConnect then ServerStart else Before
  }

  /** The field of byte `j`. */
  function FieldAt(s: UrlState, buf: seq<byte>, j: nat): Option<Field>
    requires j < |buf|
  {
    FieldOf(After(s, buf[..j + 1]))
  }

  /** Byte `j` lies in the span of field `f`. */
  predicate InSpan(fields: map<Field, Span>, f: Field, j: nat) {
    f in fields && Within(fields[f], j)
  }

  /** The recorded spans of the first `i` bytes are exactly the runs of their states. */
  ghost predicate Exact(s: UrlState, buf: seq<byte>, i: nat, fields: map<Field, Span>)
    requires i <= |buf|
  {
    && (forall f, j :: 0 <= j < i ==> (InSpan(fields, f, j) <==> FieldAt(s, buf, j) == Some(f)))
    && (forall f :: f in fields ==> fields[f].len > 0 && fields[f].off + fields[f].len <= i)
  }

  /** What the loop keeps besides: where it is, and that only parts up to here were recorded. */
  ghost predicate Scanning(s: UrlState, buf: seq<byte>, i: nat, fields: map<Field, Span>, current: Option<Field>)
    requires i <= |buf|
  {
    var t := After(s, buf[..i]);
    && Exact(s, buf, i, fields)
    && t != Dead
    && (current.Some? ==> current.value in fields)
    && (forall f :: f in fields ==> FieldRank(f) <= Rank(t))
    && (FieldOf(t).Some? ==> current == FieldOf(t) && fields[current.value].off + fields[current.value].len == i)
  }

  /** What the loop body does with a byte of field `uf` at `i`. */
  function Recorded(fields: map<Field, Span>, current: Option<Field>, uf: Option<Field>, i: nat): map<Field, Span>
    requires current.Some? ==> current.value in fields
  {
    match uf
    case None => fields
    case Some(f) =>
      if current == uf then fields[f := Span(fields[f].off, fields[f].len + 1)] else fields[f := Span(i, 1)]
  }

  lemma AfterStep(s: UrlState, buf: seq<byte>, i: nat)
    requires i < |buf|
    ensures After(s, buf[..i + 1]) == UrlChar(After(s, buf[..i]), buf[i])
  {
    assert buf[..i + 1][..i] == buf[..i];
  }

  /** A field met again is the one being read; a field not being read is new. */
  lemma NoReturn(s: UrlState, buf: seq<byte>, i: nat, fields: map<Field, Span>, current: Option<Field>, f: Field)
    requires i < |buf| && Scanning(s, buf, i, fields, current)
    requires After(s, buf[..i + 1]) != Dead && FieldAt(s, buf, i) == Some(f)
    ensures current == Some(f) ==> fields[f].off + fields[f].len == i
    ensures current != Some(f) ==> f !in fields
  {
    var t, t' := After(s, buf[..i]), After(s, buf[..i + 1]);
    AfterStep(s, buf, i);
    RankGrows(t, buf[i]);
    RankIsField(t, f);
    RankIsField(t', f);
    hide UrlChar, FieldOf, Rank, FieldRank, Exact, After;
  }

  lemma ScanStep(s: UrlState, buf: seq<byte>, i: nat, fields: map<Field, Span>, current: Option<Field>)
    requires i < |buf| && Scanning(s, buf, i, fields, current)
    requires After(s, buf[..i + 1]) != Dead
    ensures var uf := FieldAt(s, buf, i);
      Scanning(s, buf, i + 1, Recorded(fields, current, uf, i), if uf.Some? then uf else current)
  {
    var t, t' := After(s, buf[..i]), After(s, buf[..i + 1]);
    AfterStep(s, buf, i);
    RankGrows(t, buf[i]);
    var uf := FieldAt(s, buf, i);
    if uf.Some? {
      NoReturn(s, buf, i, fields, current, uf.value);
      RankIsField(t', uf.value);
    }
    hide UrlChar, FieldOf, Rank, FieldRank, After;
    ExactStep(s, buf, i, fields, current, uf);
  }

  lemma ExactStep(s: UrlState, buf: seq<byte>, i: nat, fields: map<Field, Span>, current: Option<Field>,
                  uf: Option<Field>)
    requires i < |buf| && Exact(s, buf, i, fields) && uf == FieldAt(s, buf, i)
    requires current.Some? ==> current.value in fields
    requires uf.Some? && current == uf ==> fields[uf.value].off + fields[uf.value].len == i
    requires uf.Some? && current != uf ==> uf.value !in fields
    ensures Exact(s, buf, i + 1, Recorded(fields, current, uf, i))
  {
    var now := Recorded(fields, current, uf, i);
    hide FieldAt;
    forall f, j | 0 <= j < i + 1
      ensures InSpan(now, f, j) <==> FieldAt(s, buf, j) == Some(f)
    {
      if j < i {
        assert InSpan(fields, f, j) <==> FieldAt(s, buf, j) == Some(f);
      }
    }
  }

  datatype Scanned = Scanned(fields: map<Field, Span>, current: Option<Field>)

  function Record(sc: Scanned, uf: Option<Field>, i: nat): (r: Scanned)
    requires sc.current.Some? ==> sc.current.value in sc.fields
    ensures r.current.Some? ==> r.current.value in r.fields
  {
    Scanned(Recorded(sc.fields, sc.current, uf, i), if uf.Some? then uf else sc.current)
  }

  /** What the loop has recorded after `i` bytes. */
  function Scan(s: UrlState, buf: seq<byte>, i: nat): (r: Scanned)
    requires i <= |buf|
    ensures r.current.Some? ==> r.current.value in r.fields
  {
    if i == 0 then Scanned(map[], None) else Record(Scan(s, buf, i - 1), FieldAt(s, buf, i - 1), i - 1)
  }

  lemma ScanNext(s: UrlState, buf: seq<byte>, i: nat)
    requires i < |buf|
    ensures Scan(s, buf, i + 1) == Record(Scan(s, buf, i), FieldAt(s, buf, i), i)
    ensures FieldAt(s, buf, i) == FieldOf(After(s, buf[..i + 1]))
  {
    hide Record, FieldOf, After;
  }

  lemma {:induction false} ScanIsExact(isConnect: bool, buf: seq<byte>, i: nat)
    requires i <= |buf| && After(StartState(isConnect), buf[..i]) != Dead
    ensures var sc := Scan(StartState(isConnect), buf, i);
      Scanning(StartState(isConnect), buf, i, sc.fields, sc.current)
    decreases i
  {
    if i > 0 {
      AfterStep(StartState(isConnect), buf, i - 1);
      ScanIsExact(isConnect, buf, i - 1);
      var sc := Scan(StartState(isConnect), buf, i - 1);
      ScanStep(StartState(isConnect), buf, i - 1, sc.fields, sc.current);
    }
  }

  // ---------------------------------------------------------------- http_parse_host_char

  datatype HostState =
    | HostDead | UserinfoStart | Userinfo | HostStart | V6Start | Host | V6 | V6End | ZoneStart | Zone
    | PortStart | Port

  function HostChar(s: HostState, ch: byte): HostState {
    match s
    case UserinfoStart => UserinfoChar(ch)
    case Userinfo => UserinfoChar(ch)
    case HostStart => if ch == OPEN then V6Start else if IsHostChar(ch) then Host else HostDead
    case Host => if IsHostChar(ch) then Host else if ch == COLON then PortStart else HostDead
    case V6End => if ch == COLON then PortStart else HostDead
    case V6 =>
      if ch == CLOSE then V6End
      else if IsHexDigit(ch) || ch == COLON || ch == DOT then V6
      else if ch == PERCENT then ZoneStart
      else HostDead
    case V6Start => if IsHexDigit(ch) || ch == COLON || ch == DOT then V6 else HostDead
    case Zone => if ch == CLOSE then V6End else if IsZoneChar(ch) then Zone else HostDead
    case ZoneStart => if IsZoneChar(ch) then Zone else HostDead
    case PortStart => if IsNum(ch) then Port else HostDead
    case Port => if IsNum(ch) then Port else HostDead
    case HostDead => HostDead
  }

  function UserinfoChar(ch: byte): HostState {
    if ch == AT then HostStart else if IsUserinfoChar(ch) then Userinfo else HostDead
  }

  function HostAfter(s: HostState, buf: seq<byte>): HostState {
    if buf == [] then s else HostChar(HostAfter(s, buf[..|buf| - 1]), buf[|buf| - 1])
  }

  function HostFieldOf(s: HostState): Option<Field> {
    match s
    case Userinfo => Some(USERINFO)
    case Host => Some(HOST)
    case V6 => Some(HOST)
    case ZoneStart => Some(HOST)
    case Zone => Some(HOST)
    case Port => Some(PORT)
    case _ => None
  }

  function HostRank(s: HostState): nat {
    match s
    case HostDead => 9
    case UserinfoStart => 0
    case Userinfo => 1
    case HostStart => 2
    case V6Start => 3
    case Host => 4
    case V6 => 4
    case ZoneStart => 4
    case Zone => 4
    case V6End => 5
    case PortStart => 6
    case Port => 7
  }

  function HostFieldRank(f: Field): nat {
    match f
    case USERINFO => 1
    case HOST => 4
    case PORT => 7
    case _ => 10
  }

  lemma HostRankGrows(s: HostState, ch: byte)
    ensures HostRank(s) <= HostRank(HostChar(s, ch))
  {
  }

  lemma HostRankIsField(s: HostState, f: Field)
    requires s != HostDead
    ensures HostFieldOf(s) == Some(f) <==> HostFieldRank(f) == HostRank(s)
  {
  }

  /** The states a host must not end in. */
  predicate Unfinished(s: HostState) {
    || s == HostStart || s == V6Start || s == V6 || s == ZoneStart || s == Zone || s == PortStart
    || s == Userinfo || s == UserinfoStart
  }

  /** The part of the host run `buf[a..b]` that byte `j` belongs to. */
  function HostFieldAt(h: HostState, buf: seq<byte>, a: nat, j: nat): Option<Field>
    requires a <= j < |buf|
  {
    HostFieldOf(HostAfter(h, buf[a..j + 1]))
  }

  function HostScan(h: HostState, buf: seq<byte>, a: nat, i: nat): (r: Scanned)
    requires a <= i <= |buf|
    ensures r.current.Some? ==> r.current.value in r.fields
    decreases i
  {
    if i == a then Scanned(map[], None) else Record(HostScan(h, buf, a, i - 1), HostFieldAt(h, buf, a, i - 1), i - 1)
  }

  ghost predicate HostExact(h: HostState, buf: seq<byte>, a: nat, i: nat, fields: map<Field, Span>)
    requires a <= i <= |buf|
  {
    && (forall f, j :: a <= j < i ==> (InSpan(fields, f, j) <==> HostFieldAt(h, buf, a, j) == Some(f)))
    && (forall f :: f in fields ==> fields[f].len > 0 && a <= fields[f].off && fields[f].off + fields[f].len <= i)
  }

  ghost predicate HostScanning(h: HostState, buf: seq<byte>, a: nat, i: nat, sc: Scanned)
    requires a <= i <= |buf|
  {
    var t := HostAfter(h, buf[a..i]);
    && HostExact(h, buf, a, i, sc.fields)
    && t != HostDead
    && (sc.current.Some? ==> sc.current.value in sc.fields)
    && (forall f :: f in sc.fields ==> HostFieldRank(f) <= HostRank(t))
    && (HostFieldOf(t).Some? ==>
          sc.current == HostFieldOf(t) && sc.fields[sc.current.value].off + sc.fields[sc.current.value].len == i)
  }

  lemma HostAfterStep(h: HostState, buf: seq<byte>, a: nat, i: nat)
    requires a <= i < |buf|
    ensures HostAfter(h, buf[a..i + 1]) == HostChar(HostAfter(h, buf[a..i]), buf[i])
  {
    assert buf[a..i + 1][..i - a] == buf[a..i];
  }

  lemma HostNoReturn(h: HostState, buf: seq<byte>, a: nat, i: nat, sc: Scanned, f: Field)
    requires a <= i < |buf| && HostScanning(h, buf, a, i, sc)
    requires HostAfter(h, buf[a..i + 1]) != HostDead && HostFieldAt(h, buf, a, i) == Some(f)
    ensures sc.current == Some(f) ==>
      HostFieldOf(HostAfter(h, buf[a..i])) == Some(f) && sc.fields[f].off + sc.fields[f].len == i
    ensures sc.current != Some(f) ==> HostFieldOf(HostAfter(h, buf[a..i])) != Some(f) && f !in sc.fields
  {
    var t, t' := HostAfter(h, buf[a..i]), HostAfter(h, buf[a..i + 1]);
    HostAfterStep(h, buf, a, i);
    HostRankGrows(t, buf[i]);
    HostRankIsField(t, f);
    HostRankIsField(t', f);
    hide HostChar, HostFieldOf, HostRank, HostFieldRank, HostExact, HostAfter;
  }

  lemma HostScanStep(h: HostState, buf: seq<byte>, a: nat, i: nat, sc: Scanned)
    requires a <= i < |buf| && HostScanning(h, buf, a, i, sc)
    requires HostAfter(h, buf[a..i + 1]) != HostDead
    ensures HostScanning(h, buf, a, i + 1, Record(sc, HostFieldAt(h, buf, a, i), i))
  {
    var t, t' := HostAfter(h, buf[a..i]), HostAfter(h, buf[a..i + 1]);
    HostAfterStep(h, buf, a, i);
    HostRankGrows(t, buf[i]);
    var uf := HostFieldAt(h, buf, a, i);
    if uf.Some? {
      HostNoReturn(h, buf, a, i, sc, uf.value);
      HostRankIsField(t', uf.value);
    }
    hide HostChar, HostFieldOf, HostRank, HostFieldRank, HostAfter;
    HostExactStep(h, buf, a, i, sc, uf);
  }

  lemma HostExactStep(h: HostState, buf: seq<byte>, a: nat, i: nat, sc: Scanned, uf: Option<Field>)
    requires a <= i < |buf| && HostExact(h, buf, a, i, sc.fields) && uf == HostFieldAt(h, buf, a, i)
    requires sc.current.Some? ==> sc.current.value in sc.fields
    requires uf.Some? && sc.current == uf ==> sc.fields[uf.value].off + sc.fields[uf.value].len == i
    requires uf.Some? && sc.current != uf ==> uf.value !in sc.fields
    ensures HostExact(h, buf, a, i + 1, Recorded(sc.fields, sc.current, uf, i))
  {
    var now := Recorded(sc.fields, sc.current, uf, i);
    hide HostFieldAt;
    forall f, j | a <= j < i + 1
      ensures InSpan(now, f, j) <==> HostFieldAt(h, buf, a, j) == Some(f)
    {
      if j < i {
        assert InSpan(sc.fields, f, j) <==> HostFieldAt(h, buf, a, j) == Some(f);
      }
    }
  }

  lemma HostScanStarts(foundAt: bool, buf: seq<byte>, a: nat)
    requires a <= |buf|
    ensures HostScanning(HostStartState(foundAt), buf, a, a, HostScan(HostStartState(foundAt), buf, a, a))
  {
    hide HostFieldAt;
  }

  lemma HostScanNext(h: HostState, buf: seq<byte>, a: nat, i: nat)
    requires a <= i < |buf|
    ensures HostScan(h, buf, a, i + 1) == Record(HostScan(h, buf, a, i), HostFieldAt(h, buf, a, i), i)
    ensures HostFieldAt(h, buf, a, i) == HostFieldOf(HostAfter(h, buf[a..i + 1]))
  {
    hide Record, HostFieldOf, HostAfter;
  }

  lemma HostDeadWas(h: HostState, buf: seq<byte>, a: nat, i: nat)
    requires a <= i < |buf| && HostAfter(h, buf[a..i + 1]) != HostDead
    ensures HostAfter(h, buf[a..i]) != HostDead
  {
    HostAfterStep(h, buf, a, i);
    hide HostAfter;
  }

  lemma {:induction false} HostScanIsExact(foundAt: bool, buf: seq<byte>, a: nat, i: nat)
    requires a <= i <= |buf| && HostAfter(HostStartState(foundAt), buf[a..i]) != HostDead
    ensures HostScanning(HostStartState(foundAt), buf, a, i, HostScan(HostStartState(foundAt), buf, a, i))
    decreases i
  {
    hide *;
    var h := HostStartState(foundAt);
    if i == a {
      HostScanStarts(foundAt, buf, a);
    } else {
      HostDeadWas(h, buf, a, i - 1);
      HostScanIsExact(foundAt, buf, a, i - 1);
      HostScanStep(h, buf, a, i - 1, HostScan(h, buf, a, i - 1));
      HostScanNext(h, buf, a, i - 1);
    }
  }

  function HostStartState(foundAt: bool): HostState {
    if foundAt then UserinfoStart else HostStart
  }

  /** Past the user information, either the host has begun before this byte or it begins here. */
  lemma HostBegins(s: HostState, ch: byte)
    requires HostChar(s, ch) != HostDead && HostRank(HostChar(s, ch)) >= 4 && HostRank(s) < 4
    ensures HostFieldOf(HostChar(s, ch)) == Some(HOST)
  {
  }

  lemma NothingRead(foundAt: bool, buf: seq<byte>, a: nat)
    requires a <= |buf|
    ensures HostRank(HostAfter(HostStartState(foundAt), buf[a..a])) < 4
  {
  }

  lemma RecordKeeps(sc: Scanned, uf: Option<Field>, i: nat, f: Field)
    requires sc.current.Some? ==> sc.current.value in sc.fields
    ensures f in Record(sc, uf, i).fields <==> f in sc.fields || uf == Some(f)
  {
  }

  lemma {:induction false} HostWasSeen(foundAt: bool, buf: seq<byte>, a: nat, i: nat)
    requires a <= i <= |buf|
    requires var t := HostAfter(HostStartState(foundAt), buf[a..i]); t != HostDead && HostRank(t) >= 4
    ensures HOST in HostScan(HostStartState(foundAt), buf, a, i).fields
    decreases i
  {
    hide *;
    if i == a {
      NothingRead(foundAt, buf, a);
    } else {
      var h := HostStartState(foundAt);
      var s := HostAfter(h, buf[a..i - 1]);
      HostAfterStep(h, buf, a, i - 1);
      HostScanNext(h, buf, a, i - 1);
      HostDeadWas(h, buf, a, i - 1);
      RecordKeeps(HostScan(h, buf, a, i - 1), HostFieldAt(h, buf, a, i - 1), i - 1, HOST);
      if HostRank(s) >= 4 {
        HostWasSeen(foundAt, buf, a, i - 1);
      } else {
        HostBegins(s, buf[i - 1]);
      }
    }
  }

  // ---------------------------------------------------------------- the whole URL

  datatype Url = Url(fields: map<Field, Span>, port: nat)

  /** Whether an `@` was met in the host run. */
  predicate FoundAt(s: UrlState, buf: seq<byte>, i: nat)
    requires i <= |buf|
  {
    i > 0 && (FoundAt(s, buf, i - 1) || After(s, buf[..i]) == ServerWithAt)
  }

  predicate InBounds(fields: map<Field, Span>, buf: seq<byte>) {
    forall f :: f in fields ==> fields[f].len > 0 && fields[f].off + fields[f].len <= |buf|
  }

  /** `http_parse_host`: the host run divided. */
  function HostParts(buf: seq<byte>, fields: map<Field, Span>, foundAt: bool): Option<map<Field, Span>>
    requires HOST in fields && fields[HOST].off + fields[HOST].len <= |buf|
  {
    var a := fields[HOST].off;
    var b := a + fields[HOST].len;
    var t := HostAfter(HostStartState(foundAt), buf[a..b]);
    if t == HostDead || Unfinished(t) then None
    else Some(fields[HOST := Span(a, 0)] + HostScan(HostStartState(foundAt), buf, a, b).fields)
  }

  /** The value of a run of digits. */
  function Decimal(ds: seq<byte>): nat
    requires forall i :: 0 <= i < |ds| ==> IsNum(ds[i])
  {
    if ds == [] then 0
    else
      assert IsNum(ds[|ds| - 1]);
      Decimal(ds[..|ds| - 1]) * 10 + (ds[|ds| - 1] as int - 48)
  }

  function Slice(buf: seq<byte>, sp: Span): seq<byte>
    requires sp.off + sp.len <= |buf|
  {
    buf[sp.off..sp.off + sp.len]
  }

  /** The fields after both scans, or nothing when a character or a state refuses the URL. */
  function Parts(buf: seq<byte>, isConnect: bool): Option<map<Field, Span>> {
    var s := StartState(isConnect);
    if buf == [] || After(s, buf) == Dead then None
    else
      assert buf[..|buf|] == buf;
      ScanIsExact(isConnect, buf, |buf|);
      var fields := Scan(s, buf, |buf|).fields;
      if HOST in fields then HostParts(buf, fields, FoundAt(s, buf, |buf|))
      else if SCHEMA in fields then None
      else Some(fields)
  }

  /** What `http_parser_parse_url` answers. */
  function Parse(buf: seq<byte>, isConnect: bool): Option<Url> {
    match Parts(buf, isConnect)
    case None => None
    case Some(fields) =>
      if isConnect && fields.Keys != {HOST, PORT} then None
      else if PORT !in fields then Some(Url(fields, 0))
      else
        PortIsDigits(buf, isConnect);
        var v := Decimal(Slice(buf, fields[PORT]));
        if v > 0xffff then None else Some(Url(fields, v))
  }

  // ---------------------------------------------------------------- the same in sixteen bits

  lemma NarrowInBounds(fields: map<Field, Span>, n: nat, f: Field)
    requires f in fields && fields[f].off + fields[f].len <= n
    ensures Narrowed(fields)[f].off + Narrowed(fields)[f].len <= n
  {
  }

  /** The fields of the first scan, as the code stores them, stay inside the buffer. */
  lemma ScannedInBounds(buf: seq<byte>, isConnect: bool, f: Field)
    requires After(StartState(isConnect), buf) != Dead && f in Scan(StartState(isConnect), buf, |buf|).fields
    ensures var sp := Narrowed(Scan(StartState(isConnect), buf, |buf|).fields)[f]; sp.off + sp.len <= |buf|
  {
    assert buf[..|buf|] == buf;
    ScanIsExact(isConnect, buf, |buf|);
    hide After, Scan, FieldAt;
    NarrowInBounds(Scan(StartState(isConnect), buf, |buf|).fields, |buf|, f);
  }

  /** The fields as both loops store them. */
  function StoredParts(buf: seq<byte>, isConnect: bool): Option<map<Field, Span>> {
    var s := StartState(isConnect);
    if buf == [] || After(s, buf) == Dead then None
    else
      var fields := Narrowed(Scan(s, buf, |buf|).fields);
      if HOST in fields then
        ScannedInBounds(buf, isConnect, HOST);
        match HostParts(buf, fields, FoundAt(s, buf, |buf|))
        case None => None
        case Some(parts) => Some(Narrowed(parts))
      else if SCHEMA in fields then None
      else Some(fields)
  }

  lemma StoredCases(buf: seq<byte>, isConnect: bool)
    ensures var s := StartState(isConnect);
      s != Dead &&
      if buf == [] || After(s, buf) == Dead then StoredParts(buf, isConnect) == None
      else
        var fields := Narrowed(Scan(s, buf, |buf|).fields);
        && Fits(fields)
        && if HOST in fields then
             && fields[HOST].off + fields[HOST].len <= |buf|
             && match HostParts(buf, fields, FoundAt(s, buf, |buf|))
                case None => StoredParts(buf, isConnect) == None
                case Some(parts) => StoredParts(buf, isConnect) == Some(Narrowed(parts))
           else StoredParts(buf, isConnect) == if SCHEMA in fields then None else Some(fields)
  {
    FitsStays(Scan(StartState(isConnect), buf, |buf|).fields);
    hide Scan, After, FoundAt, Narrowed, Fits, HostParts;
    if buf != [] && After(StartState(isConnect), buf) != Dead
       && HOST in Narrowed(Scan(StartState(isConnect), buf, |buf|).fields) {
      NarrowedKeys(Scan(StartState(isConnect), buf, |buf|).fields);
      ScannedInBounds(buf, isConnect, HOST);
    }
  }

  lemma NarrowedKeys(fields: map<Field, Span>)
    ensures Narrowed(fields).Keys == fields.Keys
  {
  }

  /** The conversion of the port field, which may hold any accepted characters once offsets wrap. */
  function PortValue(ds: seq<byte>): (r: Option<nat>)
    ensures r.Some? ==> r.value <= 0xffff
  {
    if ds == [] then Some(0)
    else
      match PortValue(ds[..|ds| - 1])
      case None => None
      case Some(v) =>
        var w := v * 10 + (ds[|ds| - 1] as int - 48);
        if 0 <= w <= 0xffff then Some(w) else None
  }

  /** What `http_parser_parse_url` answers. */
  function Answer(buf: seq<byte>, isConnect: bool): Option<Url> {
    match StoredParts(buf, isConnect)
    case None => None
    case Some(fields) =>
      if isConnect && fields.Keys != {HOST, PORT} then None
      else if PORT !in fields then Some(Url(fields, 0))
      else
        StoredInBounds(buf, isConnect);
        match PortValue(Slice(buf, fields[PORT]))
        case None => None
        case Some(v) => Some(Url(fields, v))
  }

  lemma StoredInBounds(buf: seq<byte>, isConnect: bool)
    requires StoredParts(buf, isConnect).Some?
    ensures var fields := StoredParts(buf, isConnect).value;
      forall f :: f in fields ==> fields[f].off + fields[f].len <= |buf|
  {
    var s := StartState(isConnect);
    var fields := Scan(s, buf, |buf|).fields;
    var stored := Narrowed(fields);
    hide After, FoundAt, Scan;
    forall f | f in fields
      ensures stored[f].off + stored[f].len <= |buf|
    {
      ScannedInBounds(buf, isConnect, f);
    }
    if HOST in stored {
      HostInBounds(buf, stored, FoundAt(s, buf, |buf|));
      var parts := HostParts(buf, stored, FoundAt(s, buf, |buf|)).value;
      hide HostParts;
      forall f | f in parts
        ensures Narrowed(parts)[f].off + Narrowed(parts)[f].len <= |buf|
      {
        NarrowInBounds(parts, |buf|, f);
      }
    }
  }

  lemma HostInBounds(buf: seq<byte>, fields: map<Field, Span>, foundAt: bool)
    requires HOST in fields && forall f :: f in fields ==> fields[f].off + fields[f].len <= |buf|
    requires HostParts(buf, fields, foundAt).Some?
    ensures var parts := HostParts(buf, fields, foundAt).value;
      forall f :: f in parts ==> parts[f].off + parts[f].len <= |buf|
  {
    var a, b := fields[HOST].off, fields[HOST].off + fields[HOST].len;
    HostScanIsExact(foundAt, buf, a, b);
    hide HostAfter, HostScan, HostFieldAt;
  }

  /** For a run of digits the conversion gives its value. */
  lemma {:induction false} PortOfDigits(ds: seq<byte>)
    requires forall i :: 0 <= i < |ds| ==> IsNum(ds[i])
    ensures PortValue(ds) == if Decimal(ds) <= 0xffff then Some(Decimal(ds)) else None
  {
    if ds != [] {
      PortOfDigits(ds[..|ds| - 1]);
      assert IsNum(ds[|ds| - 1]);
    }
  }

  /** An accepted URL has no byte from 127 on. */
  lemma {:induction false} OnlyAscii(s: UrlState, buf: seq<byte>)
    requires s != Dead && After(s, buf) != Dead
    ensures forall i :: 0 <= i < |buf| ==> buf[i] < 127
  {
    if buf != [] {
      OnlyAscii(s, buf[..|buf| - 1]);
    }
  }

  /** The part being read at the end of a scan reaches that end. */
  lemma PartReaches(foundAt: bool, buf: seq<byte>, a: nat, i: nat, f: Field)
    requires a <= i <= |buf|
    requires var t := HostAfter(HostStartState(foundAt), buf[a..i]); t != HostDead && HostFieldOf(t) == Some(f)
    ensures var parts := HostScan(HostStartState(foundAt), buf, a, i).fields;
      f in parts && parts[f].off + parts[f].len == i
  {
    HostScanIsExact(foundAt, buf, a, i);
    hide HostAfter, HostScan, HostExact, HostFieldOf;
  }

  lemma BeforeV6End(s: HostState, ch: byte)
    requires HostChar(s, ch) == V6End
    ensures HostFieldOf(s) == Some(HOST) && s != HostDead && HostFieldOf(V6End) == None
  {
  }

  /** Which state the scan of a whole host ends in. */
  lemma FinishedState(t: HostState)
    requires t != HostDead && !Unfinished(t)
    ensures t == V6End || HostFieldOf(t) == Some(HOST) || HostFieldOf(t) == Some(PORT)
  {
  }

  predicate Reaches(parts: map<Field, Span>, f: Field, n: int) {
    f in parts && parts[f].off + parts[f].len >= n
  }

  /** The host part, or the port behind it, ends where the run of the host ends or one byte before. */
  lemma EndsLate(foundAt: bool, buf: seq<byte>, a: nat, b: nat)
    requires a < b <= |buf|
    requires var t := HostAfter(HostStartState(foundAt), buf[a..b]); t != HostDead && !Unfinished(t)
    ensures var parts := HostScan(HostStartState(foundAt), buf, a, b).fields;
      Reaches(parts, HOST, b - 1) || Reaches(parts, PORT, b - 1)
  {
    hide *;
    var h := HostStartState(foundAt);
    var s, t := HostAfter(h, buf[a..b - 1]), HostAfter(h, buf[a..b]);
    FinishedState(t);
    HostAfterStep(h, buf, a, b - 1);
    HostScanNext(h, buf, a, b - 1);
    if t == V6End {
      BeforeV6End(s, buf[b - 1]);
      PartReaches(foundAt, buf, a, b - 1, HOST);
      var sc := HostScan(h, buf, a, b - 1);
      RecordNone(sc, b - 1);
      ReachesEnd(sc.fields, HOST, b - 1);
    } else {
      PartReaches(foundAt, buf, a, b, HostFieldOf(t).value);
      ReachesEnd(HostScan(h, buf, a, b).fields, HostFieldOf(t).value, b);
    }
  }

  lemma RecordNone(sc: Scanned, i: nat)
    requires sc.current.Some? ==> sc.current.value in sc.fields
    ensures Record(sc, None, i) == sc
  {
  }

  lemma ReachesEnd(parts: map<Field, Span>, f: Field, n: nat)
    requires f in parts && parts[f].off + parts[f].len == n
    ensures Reaches(parts, f, n) && Reaches(parts, f, n - 1)
  {
  }

  /** The run of the whole host part, when there is one. */
  function HostRun(buf: seq<byte>, isConnect: bool): (sp: Span)
    requires Parts(buf, isConnect).Some?
  {
    var fields := Scan(StartState(isConnect), buf, |buf|).fields;
    if HOST in fields then fields[HOST] else Span(0, 0)
  }

  /** What byte `j` of an accepted URL belongs to. */
  function PartAt(buf: seq<byte>, isConnect: bool, j: nat): Option<Field>
    requires Parts(buf, isConnect).Some? && j < |buf|
  {
    var s := StartState(isConnect);
    var run := HostRun(buf, isConnect);
    if FieldAt(s, buf, j) == Some(HOST) && Within(run, j) then
      HostFieldAt(HostStartState(FoundAt(s, buf, |buf|)), buf, run.off, j)
    else FieldAt(s, buf, j)
  }

  /** The host run is where the first machine is in the server states. */
  lemma RunIsHost(buf: seq<byte>, isConnect: bool)
    requires Parts(buf, isConnect).Some?
    ensures forall j :: 0 <= j < |buf| ==>
      (Within(HostRun(buf, isConnect), j) <==> FieldAt(StartState(isConnect), buf, j) == Some(HOST))
  {
    var s := StartState(isConnect);
    assert buf[..|buf|] == buf;
    ScanIsExact(isConnect, buf, |buf|);
    var fields := Scan(s, buf, |buf|).fields;
    hide Scan, FieldAt, After, HostParts;
    forall j | 0 <= j < |buf|
      ensures Within(HostRun(buf, isConnect), j) <==> FieldAt(s, buf, j) == Some(HOST)
    {
      assert InSpan(fields, HOST, j) <==> FieldAt(s, buf, j) == Some(HOST);
    }
  }

  /**
   The fields of an accepted URL: every set field is a non-empty span inside the buffer, and a byte
   lies in the span of a field exactly when its state, in the host run the state of the second
   machine, belongs to that field. So each field is one contiguous run and no two overlap.
   */
  lemma FieldsAreRuns(buf: seq<byte>, isConnect: bool)
    requires Parts(buf, isConnect).Some?
    ensures InBounds(Parts(buf, isConnect).value, buf)
    ensures forall f, j :: 0 <= j < |buf| ==>
      (InSpan(Parts(buf, isConnect).value, f, j) <==> PartAt(buf, isConnect, j) == Some(f))
  {
    var s := StartState(isConnect);
    assert buf[..|buf|] == buf;
    ScanIsExact(isConnect, buf, |buf|);
    OnlyUrlFields(s, buf, Scan(s, buf, |buf|).fields);
    RunIsHost(buf, isConnect);
    if HOST in Scan(s, buf, |buf|).fields {
      HostFieldsAreRuns(buf, isConnect);
    } else {
      NoHostFields(buf, isConnect);
    }
  }

  /** The first machine knows neither port nor user information. */
  lemma OnlyUrlFields(s: UrlState, buf: seq<byte>, fields: map<Field, Span>)
    requires Exact(s, buf, |buf|, fields)
    ensures PORT !in fields && USERINFO !in fields
  {
    forall f | f in fields
      ensures f != PORT && f != USERINFO
    {
      assert InSpan(fields, f, fields[f].off) <==> FieldAt(s, buf, fields[f].off) == Some(f);
    }
  }

  lemma NoHostFields(buf: seq<byte>, isConnect: bool)
    requires Parts(buf, isConnect).Some? && HOST !in Scan(StartState(isConnect), buf, |buf|).fields
    requires var fields := Scan(StartState(isConnect), buf, |buf|).fields;
      Exact(StartState(isConnect), buf, |buf|, fields)
    ensures InBounds(Parts(buf, isConnect).value, buf)
    ensures forall f, j :: 0 <= j < |buf| ==>
      (InSpan(Parts(buf, isConnect).value, f, j) <==> PartAt(buf, isConnect, j) == Some(f))
  {
    hide Scan, FieldAt, After;
  }

  ghost function Merged(base: map<Field, Span>, h: HostState, buf: seq<byte>, a: nat, i: nat): map<Field, Span>
    requires a <= i <= |buf|
  {
    base + HostScan(h, buf, a, i).fields
  }

  lemma HostPartsAre(buf: seq<byte>, fields: map<Field, Span>, foundAt: bool)
    requires HOST in fields && fields[HOST].off + fields[HOST].len <= |buf|
    ensures var a, b, h := fields[HOST].off, fields[HOST].off + fields[HOST].len, HostStartState(foundAt);
      var t := HostAfter(h, buf[a..b]);
      HostParts(buf, fields, foundAt)
      == if t == HostDead || Unfinished(t) then None else Some(Merged(fields[HOST := Span(a, 0)], h, buf, a, b))
  {
    hide HostAfter, HostScan, Unfinished, HostStartState;
  }

  lemma PartsAre(buf: seq<byte>, isConnect: bool)
    requires Parts(buf, isConnect).Some?
    ensures After(StartState(isConnect), buf) != Dead && buf[..|buf|] == buf
    ensures var s := StartState(isConnect);
      var fields := Scan(s, buf, |buf|).fields;
      && Exact(s, buf, |buf|, fields)
      && if HOST in fields then
           HOST in fields && fields[HOST].off + fields[HOST].len <= |buf| && fields[HOST] == HostRun(buf, isConnect)
           && Parts(buf, isConnect) == HostParts(buf, fields, FoundAt(s, buf, |buf|))
         else Parts(buf, isConnect).value == fields && SCHEMA !in fields
  {
    assert buf[..|buf|] == buf;
    hide Scan, After, HostParts, FoundAt, FieldAt;
    ScanIsExact(isConnect, buf, |buf|);
  }

  /** What the host run is cut into, as spans of the merged fields. */
  lemma HostPartsMerged(buf: seq<byte>, isConnect: bool) returns (a: nat, b: nat, parts: map<Field, Span>)
    requires Parts(buf, isConnect).Some? && HOST in Scan(StartState(isConnect), buf, |buf|).fields
    ensures var s := StartState(isConnect);
      var fields, h := Scan(s, buf, |buf|).fields, HostStartState(FoundAt(s, buf, |buf|));
      && a <= b <= |buf| && fields[HOST] == Span(a, b - a) == HostRun(buf, isConnect)
      && HostExact(h, buf, a, b, parts) && HOST in parts
      && Parts(buf, isConnect).value == fields[HOST := Span(a, 0)] + parts
  {
    hide Scan, FieldAt, After, FoundAt, HostAfter, HostScan, HostExact, HostStartState, Parts, HostParts, HostRun,
         Exact, Unfinished, HostRank;
    PartsAre(buf, isConnect);
    var s := StartState(isConnect);
    var fields, found := Scan(s, buf, |buf|).fields, FoundAt(s, buf, |buf|);
    HostPartsAre(buf, fields, found);
    a, b := fields[HOST].off, fields[HOST].off + fields[HOST].len;
    parts := HostScan(HostStartState(found), buf, a, b).fields;
    HostScanIsExact(found, buf, a, b);
    FinishedRank(HostAfter(HostStartState(found), buf[a..b]));
    HostWasSeen(found, buf, a, b);
  }

  lemma FinishedRank(t: HostState)
    requires t != HostDead && !Unfinished(t)
    ensures HostRank(t) >= 4
  {
  }

  lemma HostFieldsAreRuns(buf: seq<byte>, isConnect: bool)
    requires Parts(buf, isConnect).Some? && HOST in Scan(StartState(isConnect), buf, |buf|).fields
    requires var fields := Scan(StartState(isConnect), buf, |buf|).fields;
      Exact(StartState(isConnect), buf, |buf|, fields) && PORT !in fields && USERINFO !in fields
    requires forall j :: 0 <= j < |buf| ==>
      (Within(HostRun(buf, isConnect), j) <==> FieldAt(StartState(isConnect), buf, j) == Some(HOST))
    ensures InBounds(Parts(buf, isConnect).value, buf)
    ensures forall f, j :: 0 <= j < |buf| ==>
      (InSpan(Parts(buf, isConnect).value, f, j) <==> PartAt(buf, isConnect, j) == Some(f))
  {
    hide Scan, FieldAt, HostFieldAt, HostAfter, Parts, FoundAt, PartAt, HostRun, HostStartState, StartState, After;
    var s := StartState(isConnect);
    var fields, h := Scan(s, buf, |buf|).fields, HostStartState(FoundAt(s, buf, |buf|));
    var a, b, parts := HostPartsMerged(buf, isConnect);
    OnlyHostFields(h, buf, a, b, parts);
    var all := Parts(buf, isConnect).value;
    forall f, j | 0 <= j < |buf|
      ensures InSpan(all, f, j) <==> PartAt(buf, isConnect, j) == Some(f)
    {
      assert InSpan(fields, f, j) <==> FieldAt(s, buf, j) == Some(f);
      if a <= j < b {
        assert InSpan(parts, f, j) <==> HostFieldAt(h, buf, a, j) == Some(f);
      }
      PartOf(buf, isConnect, j);
      MergedSpan(fields, parts, all, a, b, f, j);
    }
  }

  lemma PartOf(buf: seq<byte>, isConnect: bool, j: nat)
    requires Parts(buf, isConnect).Some? && j < |buf|
    ensures var s := StartState(isConnect); var run := HostRun(buf, isConnect);
      PartAt(buf, isConnect, j)
      == if FieldAt(s, buf, j) == Some(HOST) && Within(run, j) then
           HostFieldAt(HostStartState(FoundAt(s, buf, |buf|)), buf, run.off, j)
         else FieldAt(s, buf, j)
  {
    hide Parts, FieldAt, HostFieldAt, HostRun, FoundAt;
  }

  /** Replacing the host span by its parts changes nothing outside the run. */
  lemma MergedSpan(fields: map<Field, Span>, parts: map<Field, Span>, all: map<Field, Span>, a: nat, b: nat,
                   f: Field, j: nat)
    requires a <= b && HOST in fields && fields[HOST] == Span(a, b - a) && PORT !in fields && USERINFO !in fields
    requires forall g :: g in parts ==>
      (g == HOST || g == PORT || g == USERINFO) && a <= parts[g].off && parts[g].off + parts[g].len <= b
    requires HOST in parts && all == fields[HOST := Span(a, 0)] + parts
    ensures f == HOST || f == PORT || f == USERINFO ==> (InSpan(all, f, j) <==> InSpan(parts, f, j))
    ensures f != HOST && f != PORT && f != USERINFO ==> (InSpan(all, f, j) <==> InSpan(fields, f, j))
    ensures InSpan(parts, f, j) ==> a <= j < b
  {
  }

  lemma OnlyHostFields(h: HostState, buf: seq<byte>, a: nat, b: nat, fields: map<Field, Span>)
    requires a <= b <= |buf| && HostExact(h, buf, a, b, fields)
    ensures forall f :: f in fields ==> f == HOST || f == PORT || f == USERINFO
  {
    forall f | f in fields
      ensures f == HOST || f == PORT || f == USERINFO
    {
      assert InSpan(fields, f, fields[f].off) <==> HostFieldAt(h, buf, a, fields[f].off) == Some(f);
    }
  }

  /** No two fields share a byte. */
  lemma FieldsAreDisjoint(buf: seq<byte>, isConnect: bool, f: Field, g: Field, j: nat)
    requires Parts(buf, isConnect).Some? && f != g
    ensures !(InSpan(Parts(buf, isConnect).value, f, j) && InSpan(Parts(buf, isConnect).value, g, j))
  {
    FieldsAreRuns(buf, isConnect);
    if j < |buf| {
      assert InSpan(Parts(buf, isConnect).value, f, j) <==> PartAt(buf, isConnect, j) == Some(f);
      assert InSpan(Parts(buf, isConnect).value, g, j) <==> PartAt(buf, isConnect, j) == Some(g);
    }
  }

  lemma PortIsDigits(buf: seq<byte>, isConnect: bool)
    requires Parts(buf, isConnect).Some? && PORT in Parts(buf, isConnect).value
    ensures var sp := Parts(buf, isConnect).value[PORT];
      sp.off + sp.len <= |buf| && forall i :: 0 <= i < sp.len ==> IsNum(Slice(buf, sp)[i])
  {
    hide Parts, PartAt, IsNum, Scan, After, HostAfter, HostScan, FieldAt, HostFieldAt;
    FieldsAreRuns(buf, isConnect);
    var sp := Parts(buf, isConnect).value[PORT];
    forall i | 0 <= i < sp.len
      ensures IsNum(Slice(buf, sp)[i])
    {
      var j := sp.off + i;
      assert InSpan(Parts(buf, isConnect).value, PORT, j) <==> PartAt(buf, isConnect, j) == Some(PORT);
      PortByte(buf, isConnect, j);
    }
  }

  lemma PortState(s: HostState, ch: byte)
    requires HostFieldOf(HostChar(s, ch)) == Some(PORT)
    ensures IsNum(ch)
  {
  }

  lemma NotAUrlField(s: UrlState)
    ensures FieldOf(s) != Some(PORT)
  {
  }

  lemma PortByte(buf: seq<byte>, isConnect: bool, j: nat)
    requires Parts(buf, isConnect).Some? && j < |buf| && PartAt(buf, isConnect, j) == Some(PORT)
    ensures IsNum(buf[j])
  {
    var s, run := StartState(isConnect), HostRun(buf, isConnect);
    var h := HostStartState(FoundAt(s, buf, |buf|));
    NotAUrlField(After(s, buf[..j + 1]));
    PartOf(buf, isConnect, j);
    hide Parts, After, HostAfter, HostRun, FoundAt, HostStartState, HostChar, HostFieldOf, IsNum, PartAt, FieldOf;
    HostAfterStep(h, buf, run.off, j);
    PortState(HostAfter(h, buf[run.off..j]), buf[j]);
  }

  // ---------------------------------------------------------------- when sixteen bits are enough

  lemma SameAnswer(buf: seq<byte>, isConnect: bool)
    requires StoredParts(buf, isConnect) == Parts(buf, isConnect)
    ensures Answer(buf, isConnect) == Parse(buf, isConnect)
  {
    hide StoredParts, Parts, PortValue, Decimal;
    if Parts(buf, isConnect).Some? && PORT in Parts(buf, isConnect).value {
      PortIsDigits(buf, isConnect);
      PortOfDigits(Slice(buf, Parts(buf, isConnect).value[PORT]));
    }
  }

  /** Spans that fit are stored as they are. */
  lemma FittingParts(buf: seq<byte>, isConnect: bool)
    requires After(StartState(isConnect), buf) != Dead ==> Fits(Scan(StartState(isConnect), buf, |buf|).fields)
    requires Parts(buf, isConnect).Some? ==> Fits(Parts(buf, isConnect).value)
    ensures StoredParts(buf, isConnect) == Parts(buf, isConnect)
  {
    StoredCases(buf, isConnect);
    FitsStays(Scan(StartState(isConnect), buf, |buf|).fields);
    if Parts(buf, isConnect).Some? {
      FitsStays(Parts(buf, isConnect).value);
    }
    hide Scan, After, FoundAt, Narrowed, Fits, HostParts, StoredParts, StartState;
  }

  /** The URL fields outside the host are stored as the first scan found them. */
  lemma OtherFieldsFit(buf: seq<byte>, isConnect: bool, f: Field)
    requires Parts(buf, isConnect).Some? && Fits(Parts(buf, isConnect).value)
    requires f in Scan(StartState(isConnect), buf, |buf|).fields && f != HOST
    ensures var sp := Scan(StartState(isConnect), buf, |buf|).fields[f]; sp.off < WIDTH && sp.len < WIDTH
  {
    hide Scan, After, FieldAt, Parts, FoundAt, StartState, HostFieldAt, HostAfter, HostParts;
    PartsAre(buf, isConnect);
    var s := StartState(isConnect);
    var fields := Scan(s, buf, |buf|).fields;
    assert f in Parts(buf, isConnect).value && Parts(buf, isConnect).value[f] == fields[f] by {
      if HOST in fields {
        var a, b, parts := HostPartsMerged(buf, isConnect);
        OnlyHostFields(HostStartState(FoundAt(s, buf, |buf|)), buf, a, b, parts);
        NoPort(isConnect, buf, fields);
      }
    }
  }

  lemma NoPort(isConnect: bool, buf: seq<byte>, fields: map<Field, Span>)
    requires Exact(StartState(isConnect), buf, |buf|, fields)
    ensures PORT !in fields && USERINFO !in fields
  {
    OnlyUrlFields(StartState(isConnect), buf, fields);
  }

  /** Where a merged span of the stored host ends. */
  lemma StoredEnd(buf: seq<byte>, stored: map<Field, Span>, foundAt: bool, f: Field)
    requires HOST in stored && stored[HOST].off + stored[HOST].len <= |buf|
    requires HostParts(buf, stored, foundAt).Some? && f in HostParts(buf, stored, foundAt).value
    requires f == HOST || f !in stored
    ensures var sp := Narrowed(HostParts(buf, stored, foundAt).value)[f];
      sp.off + sp.len <= stored[HOST].off + stored[HOST].len
  {
    var a, b := stored[HOST].off, stored[HOST].off + stored[HOST].len;
    HostScanIsExact(foundAt, buf, a, b);
    hide HostAfter, HostScan, HostFieldAt, Unfinished;
    NarrowInBounds(HostParts(buf, stored, foundAt).value, b, f);
  }

  lemma WidthOf(n: nat)
    requires n - 1 <= n % WIDTH
    ensures n < WIDTH
  {
  }

  /** The end of the host shows that its run was not cut short. */
  lemma HostRunFits(buf: seq<byte>, isConnect: bool)
    requires Parts(buf, isConnect).Some? && StoredParts(buf, isConnect) == Parts(buf, isConnect)
    requires Fits(Parts(buf, isConnect).value) && HOST in Scan(StartState(isConnect), buf, |buf|).fields
    ensures var sp := Scan(StartState(isConnect), buf, |buf|).fields[HOST]; sp.off < WIDTH && sp.len < WIDTH
  {
    hide Scan, After, FieldAt, Parts, StoredParts, FoundAt, StartState, HostFieldAt, HostAfter, HostParts, HostScan,
         HostStartState, Narrowed, HostRun;
    var s := StartState(isConnect);
    var fields, found, all := Scan(s, buf, |buf|).fields, FoundAt(s, buf, |buf|), Parts(buf, isConnect).value;
    PartsAre(buf, isConnect);
    StoredCases(buf, isConnect);
    NarrowedKeys(fields);
    NoPort(isConnect, buf, fields);
    NarrowAt(fields, HOST);
    var a, b, f := HostEnd(buf, isConnect);
    NarrowedKeys(HostParts(buf, Narrowed(fields), found).value);
    StoredEnd(buf, Narrowed(fields), found, f);
    WidthOf(b - a);
  }

  lemma NarrowAt(fields: map<Field, Span>, f: Field)
    requires f in fields
    ensures Narrowed(fields)[f] == Narrow(fields[f])
  {
  }

  /** One of the exact spans of the host run ends with it, or one byte before. */
  lemma HostEnd(buf: seq<byte>, isConnect: bool) returns (a: nat, b: nat, f: Field)
    requires Parts(buf, isConnect).Some? && HOST in Scan(StartState(isConnect), buf, |buf|).fields
    ensures a < b && Scan(StartState(isConnect), buf, |buf|).fields[HOST] == Span(a, b - a)
    ensures var all := Parts(buf, isConnect).value;
      HOST in all && a <= all[HOST].off && (f == HOST || f == PORT) && Reaches(all, f, b - 1)
  {
    hide Scan, After, FieldAt, Parts, FoundAt, StartState, HostFieldAt, HostAfter, HostParts, HostScan,
         HostStartState, HostRun, Unfinished;
    var s := StartState(isConnect);
    var fields, found := Scan(s, buf, |buf|).fields, FoundAt(s, buf, |buf|);
    PartsAre(buf, isConnect);
    HostPartsAre(buf, fields, found);
    a, b := fields[HOST].off, fields[HOST].off + fields[HOST].len;
    EndsLate(found, buf, a, b);
    HostScanIsExact(found, buf, a, b);
    FinishedRank(HostAfter(HostStartState(found), buf[a..b]));
    HostWasSeen(found, buf, a, b);
    var parts := HostScan(HostStartState(found), buf, a, b).fields;
    f := if Reaches(parts, HOST, b - 1) then HOST else PORT;
  }

  /**
   When the stored fields are the exact ones: for a URL that is one, the code answers with its fields
   and port exactly when the run of every field the first loop found, and every span of the result,
   has an offset and a length of at most 65535.
   */
  lemma WrapsExactly(buf: seq<byte>, isConnect: bool)
    requires Parse(buf, isConnect).Some?
    ensures After(StartState(isConnect), buf) != Dead
    ensures Answer(buf, isConnect) == Parse(buf, isConnect) <==>
            Fits(Scan(StartState(isConnect), buf, |buf|).fields) && Fits(Parse(buf, isConnect).value.fields)
  {
    PartsAre(buf, isConnect);
    var fields := Scan(StartState(isConnect), buf, |buf|).fields;
    if Answer(buf, isConnect) == Parse(buf, isConnect) {
      AnswerFits(buf, isConnect);
      forall f | f in fields
        ensures fields[f].off < WIDTH && fields[f].len < WIDTH
      {
        if f == HOST {
          HostRunFits(buf, isConnect);
        } else {
          OtherFieldsFit(buf, isConnect, f);
        }
      }
    } else if Fits(fields) && Fits(Parts(buf, isConnect).value) {
      FittingParts(buf, isConnect);
      SameAnswer(buf, isConnect);
    }
  }

  lemma AnswerFits(buf: seq<byte>, isConnect: bool)
    requires Parse(buf, isConnect).Some? && Answer(buf, isConnect) == Parse(buf, isConnect)
    ensures StoredParts(buf, isConnect) == Parts(buf, isConnect) && Fits(Parts(buf, isConnect).value)
  {
    hide StoredParts, Parts, PortValue, Decimal, Fits, Narrowed;
    StoredCases(buf, isConnect);
    var s := StartState(isConnect);
    var stored := Narrowed(Scan(s, buf, |buf|).fields);
    if buf != [] && After(s, buf) != Dead && HOST in stored {
      var m := HostParts(buf, stored, FoundAt(s, buf, |buf|));
      if m.Some? {
        FitsStays(m.value);
      }
    }
  }

  /** A buffer of at most 65535 bytes never wraps. */
  lemma ShortIsExact(buf: seq<byte>, isConnect: bool)
    requires |buf| < WIDTH
    ensures Answer(buf, isConnect) == Parse(buf, isConnect)
  {
    var s := StartState(isConnect);
    if After(s, buf) != Dead {
      assert buf[..|buf|] == buf;
      ScanIsExact(isConnect, buf, |buf|);
    }
    if Parts(buf, isConnect).Some? {
      FieldsAreRuns(buf, isConnect);
    }
    hide Scan, After, FieldAt, Parts, StoredParts;
    FittingParts(buf, isConnect);
    SameAnswer(buf, isConnect);
  }

  function Slashes(n: nat): seq<byte> {
    seq(n, _ => SLASH)
  }

  lemma {:induction false} SlashesScan(n: nat)
    requires n > 0
    ensures After(Before, Slashes(n)) == Path
    decreases n
  {
    assert Slashes(n)[..n - 1] == Slashes(n - 1);
    if n > 1 {
      SlashesScan(n - 1);
    }
  }

  /** The path of 65536 slashes is a URL, and is answered with a path of length 0. */
  lemma LongPathWraps()
    ensures var buf := Slashes(WIDTH);
      Parse(buf, false) == Some(Url(map[PATH := Span(0, WIDTH)], 0))
      && Answer(buf, false) == Some(Url(map[PATH := Span(0, 0)], 0))
  {
    var buf := Slashes(WIDTH);
    PathRuns(buf, WIDTH);
    SlashesScan(WIDTH);
    assert buf[..|buf|] == buf;
    StoredCases(buf, false);
    assert Narrowed(map[PATH := Span(0, WIDTH)]) == map[PATH := Span(0, 0)];
    hide After, Scan, Slashes, Narrowed, StoredParts;
    assert Parts(buf, false) == Some(map[PATH := Span(0, WIDTH)]);
  }

  lemma {:induction false} PathRuns(buf: seq<byte>, n: nat)
    requires 0 < n <= |buf| && buf == Slashes(|buf|)
    ensures Scan(Before, buf, n) == Scanned(map[PATH := Span(0, n)], Some(PATH))
    decreases n
  {
    assert buf[..n] == Slashes(n);
    SlashesScan(n);
    ScanNext(Before, buf, n - 1);
    hide After, Slashes;
    if n > 1 {
      PathRuns(buf, n - 1);
    }
  }

  // ---------------------------------------------------------------- in place

  lemma {:induction false} DeadStays(s: UrlState, buf: seq<byte>, i: nat)
    requires i <= |buf| && After(s, buf[..i]) == Dead
    ensures After(s, buf) == Dead
    decreases |buf| - i
  {
    if i == |buf| {
      assert buf[..i] == buf;
    } else {
      AfterStep(s, buf, i);
      DeadStays(s, buf, i + 1);
    }
  }

  lemma {:induction false} HostDeadStays(h: HostState, buf: seq<byte>, a: nat, i: nat, b: nat)
    requires a <= i <= b <= |buf| && HostAfter(h, buf[a..i]) == HostDead
    ensures HostAfter(h, buf[a..b]) == HostDead
    decreases b - i
  {
    if i < b {
      HostAfterStep(h, buf, a, i);
      HostDeadStays(h, buf, a, i + 1, b);
    }
  }

  /** The two updates of `http_parse_host` do what the scan records. */
  lemma RecordInto(base: map<Field, Span>, sc: Scanned, f: Field, i: nat)
    requires sc.current.Some? ==> sc.current.value in sc.fields
    requires sc.current != Some(f) ==> f !in sc.fields
    ensures var all := base + sc.fields; var now := base + Record(sc, Some(f), i).fields;
      now == if sc.current == Some(f) then all[f := Span(all[f].off, all[f].len + 1)] else all[f := Span(i, 1)]
  {
  }

  /** A byte of part `f` of the host; `before` is the part of the byte before it. */
  lemma HostTurnRecords(base: map<Field, Span>, sc: Scanned, before: Option<Field>, f: Field, p: nat)
    requires HOST in base && base[HOST].len == 0
    requires sc.current.Some? ==> sc.current.value in sc.fields
    requires sc.current == Some(f) <==> before == Some(f)
    requires sc.current != Some(f) ==> f !in sc.fields
    ensures var all := Narrowed(base + sc.fields);
      && HOST in all && (f == HOST && before != Some(f) ==> all[HOST].len == 0)
      && (before == Some(f) ==> f in all)
      && Narrowed(base + Record(sc, Some(f), p).fields) == Noted(all, before, Some(f), p)
  {
    RecordInto(base, sc, f, p);
    hide Record;
    NarrowedNoted(base + sc.fields, before, f, p);
  }

  class HttpParserUrl {
    /** The fields whose bit is set, with their 16-bit offset and length. */
    var fields: map<Field, Span>
    var port: nat

    /** `len++` on the length of a field. */
    method Extend(f: Field)
      requires f in fields
      modifies this`fields
      ensures fields == old(fields)[f := Longer(old(fields)[f])]
    {
      fields := fields[f := Span(fields[f].off, (fields[f].len + 1) % WIDTH)];
    }

    /** The switch of `http_parse_host` on the new state `t` for the byte at `p`. */
    method NotePart(s: HostState, t: HostState, p: nat)
      requires HOST in fields
      requires HostFieldOf(s) != Some(HOST) && HostFieldOf(t) == Some(HOST) ==> fields[HOST].len == 0
      requires HostFieldOf(t).Some? && HostFieldOf(s) == HostFieldOf(t) ==> HostFieldOf(t).value in fields
      requires t == Host || t == V6 || t == Port || t == Userinfo ==> (s == t <==> HostFieldOf(s) == HostFieldOf(t))
      requires t == ZoneStart || t == Zone ==> HostFieldOf(s) == Some(HOST)
      modifies this`fields
      ensures fields == Noted(old(fields), HostFieldOf(s), HostFieldOf(t), p)
    {
      if t == Host || t == V6 {
        if s != t {
          fields := fields[HOST := Span(p % WIDTH, fields[HOST].len)];
        }
        Extend(HOST);
      } else if t == ZoneStart || t == Zone {
        Extend(HOST);
      } else if t == Port {
        if s != t {
          fields := fields[PORT := Span(p % WIDTH, 0)];
        }
        Extend(PORT);
      } else if t == Userinfo {
        if s != t {
          fields := fields[USERINFO := Span(p % WIDTH, 0)];
        }
        Extend(USERINFO);
      }
    }

    /** The loop of `http_parse_host`, which stops at the first refused byte. */
    method ScanHost(buf: seq<byte>, foundAt: bool, a: nat, b: nat) returns (s: HostState)
      requires a <= b <= |buf| && HOST in fields && fields[HOST].len == 0 && Fits(fields)
      modifies this`fields
      ensures s == HostAfter(HostStartState(foundAt), buf[a..b])
      ensures s != HostDead ==> fields == Narrowed(Merged(old(fields), HostStartState(foundAt), buf, a, b))
    {
      hide *;
      ghost var h, base := HostStartState(foundAt), fields;
      HostStarts(h, buf, a, base);
      var p := a;
      s := HostStartState(foundAt);
      while p < b
        invariant a <= p <= b && s == HostAfter(h, buf[a..p]) && s != HostDead
        invariant fields == Narrowed(Merged(base, h, buf, a, p))
      {
        HostAfterStep(h, buf, a, p);
        var t := HostChar(s, buf[p]);
        if t == HostDead {
          HostDeadStays(h, buf, a, p + 1, b);
          return HostDead;
        }
        HostTurn(foundAt, buf, a, p, base);
        NotePart(s, t, p);
        s, p := t, p + 1;
      }
    }

    /** `http_parse_host`. */
    method ParseHost(buf: seq<byte>, foundAt: bool) returns (rc: int)
      requires HOST in fields && fields[HOST].off + fields[HOST].len <= |buf| && Fits(fields)
      modifies this`fields
      ensures rc == 0 <==> HostParts(buf, old(fields), foundAt).Some?
      ensures rc == 0 ==> fields == Narrowed(HostParts(buf, old(fields), foundAt).value)
    {
      hide HostAfter, HostScan, HostParts, Unfinished, Narrowed, HostStartState, Merged;
      HostPartsAre(buf, fields, foundAt);
      var a, b := fields[HOST].off, fields[HOST].off + fields[HOST].len;
      fields := fields[HOST := Span(a, 0)];
      var s := ScanHost(buf, foundAt, a, b);
      rc := if s == HostDead || Unfinished(s) then 1 else 0;
    }

    /** The switch of `http_parser_parse_url`: a byte of field `uf` at `p`. */
    method NoteField(uf: Field, current: Option<Field>, p: nat)
      requires current == Some(uf) ==> uf in fields
      modifies this`fields
      ensures fields == Noted(old(fields), current, Some(uf), p)
    {
      if current == Some(uf) {
        Extend(uf);
      } else {
        fields := fields[uf := Span(p % WIDTH, 1)];
      }
    }

    /** The first loop of `http_parser_parse_url`. */
    method ScanUrl(buf: seq<byte>, isConnect: bool) returns (ok: bool, foundAt: bool)
      requires buf != [] && fields == map[]
      modifies this`fields
      ensures ok <==> After(StartState(isConnect), buf) != Dead
      ensures ok ==> fields == Narrowed(Scan(StartState(isConnect), buf, |buf|).fields)
      ensures ok ==> foundAt == FoundAt(StartState(isConnect), buf, |buf|)
    {
      hide *;
      ghost var s0 := StartState(isConnect);
      var s, p := StartState(isConnect), 0;
      var current: Option<Field> := None;
      foundAt := false;
      ScanStarts(isConnect, buf);
      while p < |buf|
        invariant 0 <= p <= |buf| && s == After(s0, buf[..p]) && s != Dead
        invariant fields == Narrowed(Scan(s0, buf, p).fields) && current == Scan(s0, buf, p).current
        invariant foundAt == FoundAt(s0, buf, p)
      {
        AfterStep(s0, buf, p);
        s := UrlChar(s, buf[p]);
        if s == Dead {
          DeadStays(s0, buf, p + 1);
          return false, foundAt;
        }
        if s == ServerWithAt {
          foundAt := true;
        }
        var uf := FieldOf(s);
        FoundStep(s0, buf, p);
        UrlTurn(isConnect, buf, p);
        if uf.Some? {
          NoteField(uf.value, current, p);
          current := uf;
        }
        p := p + 1;
      }
      ok := true;
    }

    /** The conversion of the port field; its bytes are characters of an accepted URL. */
    method ReadPort(ds: seq<byte>) returns (ok: bool, v: nat)
      requires forall i :: 0 <= i < |ds| ==> ds[i] < 128
      ensures ok <==> PortValue(ds).Some?
      ensures ok ==> v == PortValue(ds).value
    {
      v := 0;
      var p := 0;
      assert ds[..0] == [] && ds[..|ds|] == ds;
      while p < |ds|
        invariant 0 <= p <= |ds| && PortValue(ds[..p]) == Some(v) && v <= 0xffff
      {
        assert ds[..p + 1][..p] == ds[..p];
        var w := v * 10 + (ds[p] as int - 48);
        p := p + 1;
        // below zero, the unsigned long wraps to a large value
        if w < 0 || w > 0xffff {
          NoValue(ds, p);
          return false, v;
        }
        v := w;
      }
      ok := true;
    }

    /**
     `http_parser_parse_url`, for any buffer: 0 exactly for the URLs `Answer` accepts, with its fields and
     port. `WrapsExactly` says when these are the exact ones.
     */
    method ParseUrl(buf: seq<byte>, isConnect: bool) returns (rc: int)
      modifies this
      ensures rc == 0 <==> Answer(buf, isConnect).Some?
      ensures rc == 0 ==> Url(fields, port) == Answer(buf, isConnect).value
    {
      hide StoredParts, Scan, After, HostScan, FoundAt, Narrowed, Fits, HostParts, PortValue, StartState;
      StoredCases(buf, isConnect);
      if buf == [] {
        return 1;
      }
      port, fields := 0, map[];
      var ok, foundAt := ScanUrl(buf, isConnect);
      if !ok {
        return 1;
      }
      OnlyAscii(StartState(isConnect), buf);
      if SCHEMA in fields && HOST !in fields {
        return 1;
      }
      if HOST in fields {
        rc := ParseHost(buf, foundAt);
        if rc != 0 {
          return 1;
        }
      }
      if isConnect && fields.Keys != {HOST, PORT} {
        return 1;
      }
      if PORT in fields {
        StoredInBounds(buf, isConnect);
        ok, port := ReadPort(Slice(buf, fields[PORT]));
        if !ok {
          return 1;
        }
      }
      rc := 0;
    }
  }

  /** What one turn does to the stored fields: the next byte of a field being read, or the first of another. */
  function Noted(fields: map<Field, Span>, before: Option<Field>, now: Option<Field>, p: nat): map<Field, Span>
    requires now.Some? && before == now ==> now.value in fields
  {
    match now
    case None => fields
    case Some(f) => if before == now then fields[f := Longer(fields[f])] else fields[f := Narrow(Span(p, 1))]
  }

  lemma NarrowedNoted(all: map<Field, Span>, before: Option<Field>, uf: Field, p: nat)
    requires before == Some(uf) ==> uf in all
    ensures var now := if before == Some(uf) then Span(all[uf].off, all[uf].len + 1) else Span(p, 1);
            Narrowed(all[uf := now]) == Noted(Narrowed(all), before, Some(uf), p)
  {
    if before == Some(uf) {
      NarrowedUpdate(all, uf, Span(all[uf].off, all[uf].len + 1));
      NarrowLonger(all[uf]);
    } else {
      NarrowedUpdate(all, uf, Span(p, 1));
    }
  }

  lemma {:induction false} NoValue(ds: seq<byte>, k: nat)
    requires k <= |ds| && PortValue(ds[..k]).None?
    ensures PortValue(ds).None?
    decreases |ds| - k
  {
    if k == |ds| {
      assert ds[..k] == ds;
    } else {
      assert ds[..k + 1][..k] == ds[..k];
      NoValue(ds, k + 1);
    }
  }

  lemma HostStarts(h: HostState, buf: seq<byte>, a: nat, base: map<Field, Span>)
    requires a <= |buf| && Fits(base)
    ensures h == HostAfter(h, buf[a..a]) && base == Narrowed(Merged(base, h, buf, a, a))
    ensures HostStartState(true) != HostDead && HostStartState(false) != HostDead
  {
    assert base + map[] == base;
    FitsStays(base);
  }

  lemma ScanStarts(isConnect: bool, buf: seq<byte>)
    ensures var s := StartState(isConnect);
      && s != Dead && buf[..|buf|] == buf && After(s, buf[..0]) == s && !FoundAt(s, buf, 0)
      && Narrowed(Scan(s, buf, 0).fields) == map[] && Scan(s, buf, 0).current == None
  {
  }

  lemma FoundStep(s: UrlState, buf: seq<byte>, p: nat)
    requires p < |buf|
    ensures FoundAt(s, buf, p + 1) == (FoundAt(s, buf, p) || After(s, buf[..p + 1]) == ServerWithAt)
  {
  }

  /** A turn of the first loop records what the scan records. */
  lemma UrlTurn(isConnect: bool, buf: seq<byte>, p: nat)
    requires p < |buf|
    requires After(StartState(isConnect), buf[..p]) != Dead && After(StartState(isConnect), buf[..p + 1]) != Dead
    ensures var s := StartState(isConnect);
      var sc, sc', uf := Scan(s, buf, p), Scan(s, buf, p + 1), FieldOf(After(s, buf[..p + 1]));
      && sc'.current == (if uf.Some? then uf else sc.current)
      && (uf.Some? && sc.current == uf ==> uf.value in Narrowed(sc.fields))
      && Narrowed(sc'.fields) == if uf.Some? then Noted(Narrowed(sc.fields), sc.current, uf, p) else Narrowed(sc.fields)
  {
    hide Scan, After, FieldOf, FieldAt, Narrowed, Noted, StartState;
    var s := StartState(isConnect);
    var sc, uf := Scan(s, buf, p), FieldOf(After(s, buf[..p + 1]));
    ScanNext(s, buf, p);
    NarrowedKeys(sc.fields);
    if uf.Some? {
      NarrowedNoted(sc.fields, sc.current, uf.value, p);
    }
  }

  /** A turn of that loop records what the scan records. */
  lemma HostTurn(foundAt: bool, buf: seq<byte>, a: nat, p: nat, base: map<Field, Span>)
    requires a <= p < |buf| && HOST in base && base[HOST].len == 0
    requires HostAfter(HostStartState(foundAt), buf[a..p]) != HostDead
    requires HostAfter(HostStartState(foundAt), buf[a..p + 1]) != HostDead
    ensures var h := HostStartState(foundAt);
      var s, t := HostAfter(h, buf[a..p]), HostAfter(h, buf[a..p + 1]);
      var all, now := Narrowed(Merged(base, h, buf, a, p)), Narrowed(Merged(base, h, buf, a, p + 1));
      && (t == Host || t == V6 || t == Port || t == Userinfo ==> (s == t <==> HostFieldOf(s) == HostFieldOf(t)))
      && (t == ZoneStart || t == Zone ==> HostFieldOf(s) == Some(HOST))
      && HOST in all && (HostFieldOf(s) != Some(HOST) && HostFieldOf(t) == Some(HOST) ==> all[HOST].len == 0)
      && (HostFieldOf(t).Some? && HostFieldOf(s) == HostFieldOf(t) ==> HostFieldOf(t).value in all)
      && now == Noted(all, HostFieldOf(s), HostFieldOf(t), p)
  {
    var h := HostStartState(foundAt);
    var s, sc := HostAfter(h, buf[a..p]), HostScan(h, buf, a, p);
    HostAfterStep(h, buf, a, p);
    CodeMatches(s, buf[p]);
    HostScanIsExact(foundAt, buf, a, p);
    var uf := HostFieldAt(h, buf, a, p);
    assert HostScan(h, buf, a, p + 1) == Record(sc, uf, p);
    if uf.Some? {
      HostNoReturn(h, buf, a, p, sc, uf.value);
      hide HostChar, HostAfter, HostScan, HostFieldAt, HostFieldOf, HostScanning, Record, Narrowed, Noted;
      HostTurnRecords(base, sc, HostFieldOf(s), uf.value, p);
    }
  }

  /** Where the code compares states, the run is the same as where the fields agree. */
  lemma CodeMatches(s: HostState, ch: byte)
    requires s != HostDead && HostChar(s, ch) != HostDead
    ensures var t := HostChar(s, ch);
      (t == Host || t == V6 || t == Port || t == Userinfo ==> (s == t <==> HostFieldOf(s) == HostFieldOf(t)))
      && (t == ZoneStart || t == Zone ==> HostFieldOf(s) == Some(HOST))
  {
  }
}
