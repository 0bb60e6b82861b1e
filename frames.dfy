/** The three MSRP frames the session writes (SEND request, response, REPORT request),
    their byte layout, and a frame reader that inverts the layout. The constant texts are
    the RFC 4975 ones that MsrpConstants names. */
module MsrpFrames {
  import opened Wire

  const MSRP_PROTOCOL: string := "MSRP"
  const METHOD_SEND: string := "SEND"
  const METHOD_REPORT: string := "REPORT"
  const HEADER_FROM_PATH: string := "From-Path"
  const HEADER_TO_PATH: string := "To-Path"
  const HEADER_MESSAGE_ID: string := "Message-ID"
  const HEADER_BYTE_RANGE: string := "Byte-Range"
  const HEADER_CONTENT_TYPE: string := "Content-Type"
  const HEADER_FAILURE_REPORT: string := "Failure-Report"
  const HEADER_SUCCESS_REPORT: string := "Success-Report"
  const HEADER_STATUS: string := "Status"
  const END_MSRP_MSG: string := "-------"
  /** RESPONSE_OK + " " + COMMENT_OK */
  const RESPONSE_OK_LINE: string := "200 OK"
  const STATUS_OK: string := "000 200 OK"

  const NEW_LINE: string := "\r\n"

  const CR: byte := 13
  const LF: byte := 10
  const SP: byte := 32
  const COLON: byte := 58
  const CRLF: Bytes := [CR, LF]

  /** The continuation flags closing a frame: '$', '+' and '#'. */
  const FLAG_LAST_CHUNK: byte := 36
  const FLAG_MORE_CHUNK: byte := 43
  const FLAG_ABORT: byte := 35

  /** One header line, "name: value". */
  datatype Field = Field(name: Bytes, value: Bytes)

  /** A frame: start line "MSRP <txId> <requestOrStatus>", header lines, an optional
      body between a blank line and a line break, and the end line "-------<txId><flag>". */
  datatype Frame = Frame(txId: Bytes, requestOrStatus: Bytes, fields: seq<Field>, body: Option<Bytes>, flag: byte)

  /** A header written as `(name + ": " + value + NEW_LINE).getBytes()`. */
  function TextField(name: string, value: string): Field {
    Field(Utf8(name), Utf8(value))
  }

  // ---------------------------------------------------------------------------
  // Layout

  function FieldLine(f: Field): Bytes {
    f.name + [COLON, SP] + f.value + CRLF
  }

  function FieldLines(fs: seq<Field>): Bytes {
    if fs == [] then [] else FieldLine(fs[0]) + FieldLines(fs[1..])
  }

  function EndLine(txId: Bytes, flag: byte): Bytes {
    Utf8(END_MSRP_MSG) + txId + [flag]
  }

  /** What follows the header lines: the body section if there is one, then the end line. */
  function Closing(body: Option<Bytes>, txId: Bytes, flag: byte): Bytes {
    (match body
     case Some(data) => CRLF + data + CRLF
     case None => [])
    + EndLine(txId, flag) + CRLF
  }

  function StartLine(txId: Bytes, requestOrStatus: Bytes): Bytes {
    Utf8(MSRP_PROTOCOL) + [SP] + txId + [SP] + requestOrStatus
  }

  /** The bytes the session appends to its ByteArrayOutputStream for a frame. */
  function Layout(fr: Frame): Bytes {
    StartLine(fr.txId, fr.requestOrStatus) + CRLF + FieldLines(fr.fields) + Closing(fr.body, fr.txId, fr.flag)
  }

  // ---------------------------------------------------------------------------
  // Reader

  /** The first index at or after i holding b. */
  function Find<T(==)>(s: seq<T>, b: T, i: nat): (r: Option<nat>)
    ensures r.Some? ==> i <= r.value < |s| && s[r.value] == b
    decreases |s| - i
  {
    if i >= |s| then None else if s[i] == b then Some(i) else Find(s, b, i + 1)
  }

  /** The text before the first CR LF, and what follows it. */
  function SplitLine(s: Bytes): (r: Option<(Bytes, Bytes)>)
    ensures r.Some? ==> |r.value.1| < |s|
  {
    match Find(s, CR, 0)
    case Some(k) => if k + 1 < |s| && s[k + 1] == LF then Some((s[..k], s[k + 2..])) else None
    case None => None
  }

  function ParseStart(line: Bytes): Option<(Bytes, Bytes)> {
    var p := Utf8(MSRP_PROTOCOL) + [SP];
    if |line| < |p| || line[..|p|] != p then None
    else match Find(line, SP, |p|)
      case Some(k) => Some((line[|p|..k], line[k + 1..]))
      case None => None
  }

  function ParseField(line: Bytes): Option<Field> {
    match Find(line, COLON, 0)
    case Some(k) => if k + 1 < |line| && line[k + 1] == SP then Some(Field(line[..k], line[k + 2..])) else None
    case None => None
  }

  /** The continuation flags a peer accepts at the end of an end-line. */
  predicate IsFlag(b: byte) {
    b == FLAG_LAST_CHUNK || b == FLAG_MORE_CHUNK || b == FLAG_ABORT
  }

  /** The line break that closes a body, followed by the end-line of transaction txId up to
      its flag. */
  function BodyEnd(txId: Bytes): Bytes {
    CRLF + Utf8(END_MSRP_MSG) + txId
  }

  /** The bytes of s from i on open with BodyEnd(txId) and a continuation flag. */
  predicate EndsAt(s: Bytes, txId: Bytes, i: nat) {
    var d := BodyEnd(txId);
    i + |d| < |s| && s[i..i + |d|] == d && IsFlag(s[i + |d|])
  }

  /** The first index at or after i where the body of transaction txId ends, as a peer
      scanning the stream finds it. */
  function FindEnd(s: Bytes, txId: Bytes, i: nat): (r: Option<nat>)
    ensures r.Some? ==> i <= r.value && EndsAt(s, txId, r.value)
    decreases |s| - i
  {
    if i >= |s| then None else if EndsAt(s, txId, i) then Some(i) else FindEnd(s, txId, i + 1)
  }

  /** Header lines up to a blank line (a body follows, up to the first end-line of the
      transaction) or up to the end line (no body). */
  function ReadFields(s: Bytes, txId: Bytes): Option<(seq<Field>, Option<Bytes>, byte)>
    decreases |s|
  {
    match SplitLine(s)
    case None => None
    case Some((line, rest)) =>
      if line == [] then
        match FindEnd(rest, txId, 0)
        case None => None
        case Some(k) =>
          var m := |BodyEnd(txId)|;
          if rest[k + m + 1..] == CRLF then Some(([], Some(rest[..k]), rest[k + m])) else None
      else match ParseField(line)
        case Some(f) =>
          (match ReadFields(rest, txId)
           case Some((fs, body, flag)) => Some(([f] + fs, body, flag))
           case None => None)
        case None =>
          if && |line| == |Utf8(END_MSRP_MSG)| + |txId| + 1 && line == EndLine(txId, line[|line| - 1])
             && IsFlag(line[|line| - 1]) && rest == []
          then Some(([], None, line[|line| - 1]))
          else None
  }

  /** Reads one frame back from its bytes. */
  function Read(s: Bytes): Option<Frame> {
    match SplitLine(s)
    case None => None
    case Some((start, rest)) =>
      match ParseStart(start)
      case None => None
      case Some((txId, requestOrStatus)) =>
        match ReadFields(rest, txId)
        case None => None
        case Some((fields, body, flag)) => Some(Frame(txId, requestOrStatus, fields, body, flag))
  }

  // ---------------------------------------------------------------------------
  // The reader inverts the layout

  predicate Excludes(s: Bytes, b: byte) {
    forall i :: 0 <= i < |s| ==> s[i] != b
  }

  /** Delimiters that must not occur inside a frame's text parts for its layout to be
      unambiguous, and a continuation flag at its end. */
  predicate Delimited(fr: Frame) {
    && Excludes(fr.txId, SP) && Excludes(fr.txId, CR) && Excludes(fr.txId, COLON)
    && Excludes(fr.requestOrStatus, CR)
    && FieldsSafe(fr.fields)
    && IsFlag(fr.flag)
  }

  /** The body does not contain the end-line of its transaction after a line break, so the
      first end-line a peer finds is the frame's own. */
  predicate EndLineFree(data: Bytes, txId: Bytes) {
    forall i :: 0 <= i < |data| ==> !EndsAt(data, txId, i)
  }

  predicate WellFormed(fr: Frame) {
    Delimited(fr) && (fr.body.Some? ==> EndLineFree(fr.body.value, fr.txId))
  }

  predicate FieldSafe(f: Field) {
    Excludes(f.name, CR) && Excludes(f.name, COLON) && Excludes(f.value, CR)
  }

  predicate FieldsSafe(fs: seq<Field>) {
    forall i :: 0 <= i < |fs| ==> FieldSafe(fs[i])
  }

  lemma {:induction false} FindAt<T>(s: seq<T>, b: T, i: nat, k: nat)
    requires i <= k < |s| && s[k] == b
    requires forall j :: i <= j < k ==> s[j] != b
    ensures Find(s, b, i) == Some(k)
    decreases k - i
  {
    if i < k {
      FindAt(s, b, i + 1, k);
    }
  }

  lemma {:induction false} FindNone<T>(s: seq<T>, b: T, i: nat)
    requires forall j :: i <= j < |s| ==> s[j] != b
    ensures Find(s, b, i) == None
    decreases |s| - i
  {
    if i < |s| {
      FindNone(s, b, i + 1);
    }
  }

  lemma SplitLineAt(line: Bytes, rest: Bytes)
    requires Excludes(line, CR)
    ensures SplitLine(line + CRLF + rest) == Some((line, rest))
  {
    var s := line + CRLF + rest;
    FindAt(s, CR, 0, |line|);
    assert s[..|line|] == line;
    assert s[|line| + 2..] == rest;
  }

  lemma EndMarkerText()
    ensures Excludes(Utf8(END_MSRP_MSG), CR) && Excludes(Utf8(END_MSRP_MSG), COLON)
  {
    Utf8Excludes(END_MSRP_MSG, '\r');
    Utf8Excludes(END_MSRP_MSG, ':');
  }

  lemma ParseFieldLine(f: Field)
    requires Excludes(f.name, COLON)
    ensures ParseField(f.name + [COLON, SP] + f.value) == Some(f)
  {
    var line := f.name + [COLON, SP] + f.value;
    FindAt(line, COLON, 0, |f.name|);
    assert line[..|f.name|] == f.name;
    assert line[|f.name| + 2..] == f.value;
  }

  lemma ReadClosing(body: Option<Bytes>, txId: Bytes, flag: byte)
    requires Excludes(txId, CR) && Excludes(txId, COLON) && IsFlag(flag)
    requires body.Some? ==> EndLineFree(body.value, txId)
    ensures ReadFields(Closing(body, txId, flag), txId) == Some(([], body, flag))
  {
    EndMarkerText();
    match body
    case Some(data) => ReadClosingBody(data, txId, flag);
    case None => ReadEndLine(txId, flag);
  }

  /** The bytes after the blank line of a frame with a body: the body, then its end. */
  lemma BodySection(data: Bytes, txId: Bytes, flag: byte)
    ensures Closing(Some(data), txId, flag) == [] + CRLF + (data + BodyEnd(txId) + [flag] + CRLF)
  {
    SeqAssoc(CRLF, Utf8(END_MSRP_MSG), txId);
  }

  lemma ReadClosingBody(data: Bytes, txId: Bytes, flag: byte)
    requires Excludes(txId, CR) && Excludes(Utf8(END_MSRP_MSG), CR) && IsFlag(flag)
    requires EndLineFree(data, txId)
    ensures ReadFields(Closing(Some(data), txId, flag), txId) == Some(([], Some(data), flag))
  {
    var d := BodyEnd(txId);
    var rest := data + d + [flag] + CRLF;
    BodySection(data, txId, flag);
    SplitLineAt([], rest);
    BodyEndFound(data, txId, flag);
    assert rest[..|data|] == data;
    assert rest[|data| + |d|] == flag;
    assert rest[|data| + |d| + 1..] == CRLF;
  }

  /** The first end-line a reader finds after a body without one of its own is the one that
      follows the body. */
  lemma BodyEndFound(data: Bytes, txId: Bytes, flag: byte)
    requires Excludes(txId, CR) && Excludes(Utf8(END_MSRP_MSG), CR) && IsFlag(flag)
    requires EndLineFree(data, txId)
    ensures FindEnd(data + BodyEnd(txId) + [flag] + CRLF, txId, 0) == Some(|data|)
  {
    var d := BodyEnd(txId);
    var rest := data + d + [flag] + CRLF;
    assert rest[|data|..|data| + |d|] == d;
    assert rest[|data| + |d|] == flag;
    forall j | 0 <= j < |data| ensures !EndsAt(rest, txId, j) {
      NoEarlierEnd(data, txId, flag, j);
    }
    FindEndAt(rest, txId, 0, |data|);
  }

  /** Only the first byte of BodyEnd(txId) is a carriage return. */
  lemma BodyEndExcludes(txId: Bytes, o: nat)
    requires Excludes(txId, CR) && Excludes(Utf8(END_MSRP_MSG), CR)
    requires 1 <= o < |BodyEnd(txId)|
    ensures BodyEnd(txId)[o] != CR
  {
    var m := Utf8(END_MSRP_MSG);
    if 2 <= o < 2 + |m| {
      assert BodyEnd(txId)[o] == m[o - 2];
    } else if o >= 2 + |m| {
      assert BodyEnd(txId)[o] == txId[o - 2 - |m|];
    }
  }

  /** A body without an end-line of its own does not end, for a reader, before its last byte:
      an end-line found there lies inside the body, or meets the carriage return that closes
      it, which neither continues BodyEnd nor is a flag. */
  lemma NoEarlierEnd(data: Bytes, txId: Bytes, flag: byte, j: nat)
    requires Excludes(txId, CR) && Excludes(Utf8(END_MSRP_MSG), CR) && IsFlag(flag)
    requires EndLineFree(data, txId) && j < |data|
    ensures !EndsAt(data + BodyEnd(txId) + [flag] + CRLF, txId, j)
  {
    var d := BodyEnd(txId);
    var rest := data + d + [flag] + CRLF;
    assert rest[|data|] == CR;
    if j + |d| < |data| {
      assert !EndsAt(data, txId, j);
      assert rest[j..j + |d|] == data[j..j + |d|];
      assert rest[j + |d|] == data[j + |d|];
    } else if j + |d| > |data| && j + |d| < |rest| {
      BodyEndExcludes(txId, |data| - j);
      assert rest[j..j + |d|][|data| - j] == CR;
    }
  }

  lemma {:induction false} FindEndAt(s: Bytes, txId: Bytes, i: nat, k: nat)
    requires i <= k && EndsAt(s, txId, k)
    requires forall j :: i <= j < k ==> !EndsAt(s, txId, j)
    ensures FindEnd(s, txId, i) == Some(k)
    decreases k - i
  {
    if i < k {
      FindEndAt(s, txId, i + 1, k);
    }
  }

  lemma {:induction false} FindEndBy(s: Bytes, txId: Bytes, i: nat, k: nat)
    requires i <= k && EndsAt(s, txId, k)
    ensures FindEnd(s, txId, i).Some? && FindEnd(s, txId, i).value <= k
    decreases k - i
  {
    if i < k && !EndsAt(s, txId, i) {
      FindEndBy(s, txId, i + 1, k);
    }
  }

  lemma ReadEndLine(txId: Bytes, flag: byte)
    requires Excludes(txId, CR) && Excludes(txId, COLON) && IsFlag(flag)
    requires Excludes(Utf8(END_MSRP_MSG), CR) && Excludes(Utf8(END_MSRP_MSG), COLON)
    ensures ReadFields(Closing(None, txId, flag), txId) == Some(([], None, flag))
  {
    var e := EndLine(txId, flag);
    var s := Closing(None, txId, flag);
    assert s == e + CRLF + [];
    EndLineExcludes(txId, flag, CR);
    SplitLineAt(e, []);
    EndLineExcludes(txId, flag, COLON);
    FindNone(e, COLON, 0);
    assert e[|e| - 1] == flag;
  }

  lemma EndLineExcludes(txId: Bytes, flag: byte, b: byte)
    requires Excludes(Utf8(END_MSRP_MSG), b) && Excludes(txId, b) && flag != b
    ensures Excludes(EndLine(txId, flag), b)
  {
    var m := Utf8(END_MSRP_MSG);
    var e := EndLine(txId, flag);
    forall i | 0 <= i < |e| ensures e[i] != b {
      if i < |m| {
        assert e[i] == m[i];
      } else if i < |m| + |txId| {
        assert e[i] == txId[i - |m|];
      }
    }
  }

  lemma FieldLineExcludes(f: Field)
    requires FieldSafe(f)
    ensures Excludes(f.name + [COLON, SP] + f.value, CR)
  {
    var line := f.name + [COLON, SP] + f.value;
    forall i | 0 <= i < |line| ensures line[i] != CR {
      if i >= |f.name| + 2 {
        assert line[i] == f.value[i - |f.name| - 2];
      } else if i < |f.name| {
        assert line[i] == f.name[i];
      }
    }
  }

  lemma FieldsSafeTail(fs: seq<Field>)
    requires fs != [] && FieldsSafe(fs)
    ensures FieldsSafe(fs[1..])
  {
    forall i | 0 <= i < |fs| - 1 ensures FieldSafe(fs[1..][i]) {
      assert fs[1..][i] == fs[i + 1];
    }
  }

  /** What the reader gives for header lines fs in front of bytes it reads as r. */
  function WithFields(fs: seq<Field>, r: Option<(seq<Field>, Option<Bytes>, byte)>): Option<(seq<Field>, Option<Bytes>, byte)> {
    match r
    case Some((more, body, flag)) => Some((fs + more, body, flag))
    case None => None
  }

  lemma ReadFieldsStep(line: Bytes, rest: Bytes, txId: Bytes, f: Field)
    requires Excludes(line, CR) && line != [] && ParseField(line) == Some(f)
    ensures ReadFields(line + CRLF + rest, txId) == WithFields([f], ReadFields(rest, txId))
  {
    SplitLineAt(line, rest);
  }

  /** The header lines of fs in front of any bytes read back as fs, in front of what those
      bytes read as. */
  lemma {:induction false} ReadFieldLines(fs: seq<Field>, tail: Bytes, txId: Bytes)
    requires FieldsSafe(fs)
    ensures ReadFields(FieldLines(fs) + tail, txId) == WithFields(fs, ReadFields(tail, txId))
  {
    if fs == [] {
      assert FieldLines(fs) + tail == tail;
      match ReadFields(tail, txId)
      case Some((more, body, flag)) => assert fs + more == more;
      case None =>
    } else {
      FieldsSafeTail(fs);
      ReadFieldLines(fs[1..], tail, txId);
      ReadFieldLinesCons(fs[0], fs[1..], tail, txId);
      assert [fs[0]] + fs[1..] == fs;
      match ReadFields(tail, txId)
      case Some((more, body, flag)) => SeqAssoc([fs[0]], fs[1..], more);
      case None =>
    }
  }

  /** A field's line in front of other lines adds that field in front. */
  lemma ReadFieldLinesCons(f: Field, fs: seq<Field>, tail: Bytes, txId: Bytes)
    requires FieldSafe(f)
    ensures ReadFields(FieldLines([f] + fs) + tail, txId) == WithFields([f], ReadFields(FieldLines(fs) + tail, txId))
  {
    var line := f.name + [COLON, SP] + f.value;
    var rest := FieldLines(fs) + tail;
    assert ([f] + fs)[1..] == fs;
    assert FieldLines([f] + fs) == (line + CRLF) + FieldLines(fs);
    SeqAssoc(line + CRLF, FieldLines(fs), tail);
    FieldLineExcludes(f);
    ParseFieldLine(f);
    ReadFieldsStep(line, rest, txId, f);
  }

  lemma ReadStart(txId: Bytes, requestOrStatus: Bytes)
    requires Excludes(txId, SP)
    ensures ParseStart(StartLine(txId, requestOrStatus)) == Some((txId, requestOrStatus))
  {
    var p := Utf8(MSRP_PROTOCOL) + [SP];
    var line := StartLine(txId, requestOrStatus);
    assert line == p + txId + [SP] + requestOrStatus;
    assert line[..|p|] == p;
    FindAt(line, SP, |p|, |p| + |txId|);
    assert line[|p|..|p| + |txId|] == txId;
    assert line[|p| + |txId| + 1..] == requestOrStatus;
  }

  /** Reading the bytes of a well-formed frame gives the frame back. */
  lemma ReadLayout(fr: Frame)
    requires WellFormed(fr)
    ensures Read(Layout(fr)) == Some(fr)
  {
    var start := StartLine(fr.txId, fr.requestOrStatus);
    var rest := FieldLines(fr.fields) + Closing(fr.body, fr.txId, fr.flag);
    assert Layout(fr) == start + CRLF + rest;
    assert Excludes(start, CR) by {
      Utf8Excludes(MSRP_PROTOCOL, '\r');
    }
    SplitLineAt(start, rest);
    ReadStart(fr.txId, fr.requestOrStatus);
    ReadFieldLines(fr.fields, Closing(fr.body, fr.txId, fr.flag), fr.txId);
    ReadClosing(fr.body, fr.txId, fr.flag);
    assert fr.fields + [] == fr.fields;
  }

  /** A body that holds the end-line of its own transaction after a line break ends, for a
      reader, at that end-line: the frame does not read back as itself. */
  lemma BodyWithEndLineMisread(fr: Frame)
    requires Delimited(fr) && fr.body.Some? && !EndLineFree(fr.body.value, fr.txId)
    ensures Read(Layout(fr)) != Some(fr)
  {
    var data := fr.body.value;
    var start := StartLine(fr.txId, fr.requestOrStatus);
    var closing := Closing(fr.body, fr.txId, fr.flag);
    assert Layout(fr) == start + CRLF + (FieldLines(fr.fields) + closing);
    assert Excludes(start, CR) by {
      Utf8Excludes(MSRP_PROTOCOL, '\r');
    }
    SplitLineAt(start, FieldLines(fr.fields) + closing);
    ReadStart(fr.txId, fr.requestOrStatus);
    ReadFieldLines(fr.fields, closing, fr.txId);
    EarlyEnd(data, fr.txId, fr.flag);
  }

  /** An end-line inside the body ends it early: whatever the reader makes of the bytes after
      the blank line, it is not the whole body. */
  lemma EarlyEnd(data: Bytes, txId: Bytes, flag: byte)
    requires !EndLineFree(data, txId)
    ensures var r := ReadFields(Closing(Some(data), txId, flag), txId);
            r.None? || r.value.1 != Some(data)
  {
    var d := BodyEnd(txId);
    var rest := data + d + [flag] + CRLF;
    BodySection(data, txId, flag);
    SplitLineAt([], rest);
    var i :| 0 <= i < |data| && EndsAt(data, txId, i);
    assert rest[i..i + |d|] == data[i..i + |d|];
    assert rest[i + |d|] == data[i + |d|];
    FindEndBy(rest, txId, 0, i);
  }

  // ---------------------------------------------------------------------------
  // The frames MsrpSession writes

  /** No line break inside a header text. */
  predicate LineSafe(s: string) {
    forall i :: 0 <= i < |s| ==> s[i] != '\r'
  }

  /** A header name: no line break and no colon. */
  predicate NameSafe(s: string) {
    LineSafe(s) && forall i :: 0 <= i < |s| ==> s[i] != ':'
  }

  lemma TextFieldSafe(name: string, value: string)
    requires NameSafe(name) && LineSafe(value)
    ensures FieldSafe(TextField(name, value))
  {
    Utf8Excludes(name, '\r');
    Utf8Excludes(name, ':');
    Utf8Excludes(value, '\r');
  }

  lemma HexTokenSafe(txId: string)
    requires IsHexToken(txId)
    ensures Excludes(Utf8(txId), SP) && Excludes(Utf8(txId), CR) && Excludes(Utf8(txId), COLON)
  {
    Utf8Excludes(txId, ' ');
    Utf8Excludes(txId, '\r');
    Utf8Excludes(txId, ':');
  }

  /** The Byte-Range value "first-last/total", each number as Long.toString writes it. */
  function RangeText(first: int, last: int, total: int): (s: string)
    ensures LineSafe(s)
  {
    Decimal(first) + "-" + Decimal(last) + "/" + Decimal(total)
  }

  /** Reads a Byte-Range value back into its three numbers. */
  function ParseByteRange(s: string): Option<(int, int, int)> {
    match Find(s, '/', 0)
    case None => None
    case Some(k) =>
      var range := s[..k];
      match Find(range, '-', 0)
      case None => None
      case Some(d) =>
        match (ParseDecimal(range[..d]), ParseDecimal(range[d + 1..]), ParseDecimal(s[k + 1..]))
        case (Some(a), Some(b), Some(c)) => Some((a, b, c))
        case _ => None
  }

  lemma RangeTextRoundTrip(first: int, last: int, total: int)
    requires first >= 0
    ensures ParseByteRange(RangeText(first, last, total)) == Some((first, last, total))
  {
    var a, b, c := Decimal(first), Decimal(last), Decimal(total);
    var s := RangeText(first, last, total);
    assert s == a + "-" + b + "/" + c;
    var k := |a| + 1 + |b|;
    FindAt(s, '/', 0, k);
    var range := s[..k];
    assert range == a + "-" + b;
    FindAt(range, '-', 0, |a|);
    assert range[..|a|] == a;
    assert range[|a| + 1..] == b;
    assert s[k + 1..] == c;
    DecimalRoundTrip(first);
    DecimalRoundTrip(last);
    DecimalRoundTrip(total);
  }

  /** The header lines of a header table, in its enumeration order. */
  function TextFields(headers: seq<(string, string)>): (fs: seq<Field>)
    ensures |fs| == |headers|
    ensures forall i :: 0 <= i < |headers| ==> fs[i] == TextField(headers[i].0, headers[i].1)
  {
    seq(|headers|, i requires 0 <= i < |headers| => TextField(headers[i].0, headers[i].1))
  }

  const FAILURE_REPORT_NO: Field := TextField(HEADER_FAILURE_REPORT, "no")
  const SUCCESS_REPORT_YES: Field := TextField(HEADER_SUCCESS_REPORT, "yes")

  /** The SEND request sendMsrpSendRequest writes for one chunk. */
  function SendRequest(txId: string, headers: seq<(string, string)>, contentType: string, data: Bytes,
                       firstByte: int, lastByte: int, totalSize: int,
                       failureReport: bool, successReport: bool): Frame
  {
    Frame(Utf8(txId), Utf8(METHOD_SEND),
          TextFields(headers)
          + [TextField(HEADER_BYTE_RANGE, RangeText(firstByte, lastByte, totalSize)),
             TextField(HEADER_CONTENT_TYPE, contentType)]
          + (if !failureReport then [FAILURE_REPORT_NO] else [])
          + (if successReport then [SUCCESS_REPORT_YES] else []),
          Some(data),
          if lastByte == totalSize then FLAG_LAST_CHUNK else FLAG_MORE_CHUNK)
  }

  lemma ConstantNames()
    ensures NameSafe(HEADER_FROM_PATH) && NameSafe(HEADER_TO_PATH) && NameSafe(HEADER_MESSAGE_ID)
    ensures NameSafe(HEADER_BYTE_RANGE) && NameSafe(HEADER_CONTENT_TYPE) && NameSafe(HEADER_STATUS)
    ensures NameSafe(HEADER_FAILURE_REPORT) && NameSafe(HEADER_SUCCESS_REPORT)
    ensures LineSafe("no") && LineSafe("yes") && LineSafe(STATUS_OK)
  {
  }

  lemma ReportHeadersDiffer()
    ensures FAILURE_REPORT_NO != SUCCESS_REPORT_YES
  {
    Utf8Ascii("no");
    Utf8Ascii("yes");
  }

  lemma TextFieldsSafe(headers: seq<(string, string)>)
    requires forall h <- headers :: NameSafe(h.0) && LineSafe(h.1)
    ensures FieldsSafe(TextFields(headers))
  {
    forall i | 0 <= i < |headers| ensures FieldSafe(TextFields(headers)[i]) {
      assert headers[i] in headers;
      TextFieldSafe(headers[i].0, headers[i].1);
    }
  }

  lemma FieldsSafeAppend(a: seq<Field>, b: seq<Field>)
    requires FieldsSafe(a) && FieldsSafe(b)
    ensures FieldsSafe(a + b)
  {
    forall i | 0 <= i < |a + b| ensures FieldSafe((a + b)[i]) {
      if i >= |a| { assert (a + b)[i] == b[i - |a|]; }
    }
  }

  lemma SendRequestDelimited(txId: string, headers: seq<(string, string)>, contentType: string, data: Bytes,
                             firstByte: int, lastByte: int, totalSize: int,
                             failureReport: bool, successReport: bool)
    requires IsHexToken(txId) && LineSafe(contentType)
    requires forall h <- headers :: NameSafe(h.0) && LineSafe(h.1)
    ensures Delimited(SendRequest(txId, headers, contentType, data, firstByte, lastByte, totalSize,
                                  failureReport, successReport))
  {
    HexTokenSafe(txId);
    SendFieldsSafe(headers, contentType, firstByte, lastByte, totalSize, failureReport, successReport);
    Utf8Excludes(METHOD_SEND, '\r');
  }

  lemma SendFieldsSafe(headers: seq<(string, string)>, contentType: string,
                       firstByte: int, lastByte: int, totalSize: int, failureReport: bool, successReport: bool)
    requires LineSafe(contentType)
    requires forall h <- headers :: NameSafe(h.0) && LineSafe(h.1)
    ensures FieldsSafe(TextFields(headers)
                       + [TextField(HEADER_BYTE_RANGE, RangeText(firstByte, lastByte, totalSize)),
                          TextField(HEADER_CONTENT_TYPE, contentType)]
                       + (if !failureReport then [FAILURE_REPORT_NO] else [])
                       + (if successReport then [SUCCESS_REPORT_YES] else []))
  {
    ConstantNames();
    TextFieldsSafe(headers);
    TextFieldSafe(HEADER_BYTE_RANGE, RangeText(firstByte, lastByte, totalSize));
    TextFieldSafe(HEADER_CONTENT_TYPE, contentType);
    TextFieldSafe(HEADER_FAILURE_REPORT, "no");
    TextFieldSafe(HEADER_SUCCESS_REPORT, "yes");
    var fixed := [TextField(HEADER_BYTE_RANGE, RangeText(firstByte, lastByte, totalSize)),
                  TextField(HEADER_CONTENT_TYPE, contentType)];
    var fr := if !failureReport then [FAILURE_REPORT_NO] else [];
    var sr := if successReport then [SUCCESS_REPORT_YES] else [];
    FieldsSafeAppend(TextFields(headers), fixed);
    FieldsSafeAppend(TextFields(headers) + fixed, fr);
    FieldsSafeAppend(TextFields(headers) + fixed + fr, sr);
  }

  /** A frame that is a SEND request reads back as itself exactly when its chunk does not
      hold the end-line of its transaction after a line break. */
  lemma SendRequestFrameReadsBack(fr: Frame, txId: string, headers: seq<(string, string)>, contentType: string,
                                  data: Bytes, firstByte: int, lastByte: int, totalSize: int,
                                  failureReport: bool, successReport: bool)
    requires IsHexToken(txId) && LineSafe(contentType)
    requires forall h <- headers :: NameSafe(h.0) && LineSafe(h.1)
    requires fr == SendRequest(txId, headers, contentType, data, firstByte, lastByte, totalSize,
                               failureReport, successReport)
    ensures Read(Layout(fr)) == Some(fr) <==> EndLineFree(data, Utf8(txId))
  {
    SendRequestDelimited(txId, headers, contentType, data, firstByte, lastByte, totalSize, failureReport, successReport);
    if EndLineFree(data, Utf8(txId)) {
      ReadLayout(fr);
    } else {
      BodyWithEndLineMisread(fr);
    }
  }

  /** On the wire, a SEND request reads back as itself exactly when its chunk does not hold
      the end-line of its transaction after a line break; sendMsrpSendRequest does not check
      this of the random identifier it picks. */
  lemma SendRequestReadsBack(txId: string, headers: seq<(string, string)>, contentType: string, data: Bytes,
                             firstByte: int, lastByte: int, totalSize: int,
                             failureReport: bool, successReport: bool)
    requires IsHexToken(txId) && LineSafe(contentType)
    requires forall h <- headers :: NameSafe(h.0) && LineSafe(h.1)
    ensures var fr := SendRequest(txId, headers, contentType, data, firstByte, lastByte, totalSize,
                                  failureReport, successReport);
            Read(Layout(fr)) == Some(fr) <==> EndLineFree(data, Utf8(txId))
  {
    var fr := SendRequest(txId, headers, contentType, data, firstByte, lastByte, totalSize, failureReport, successReport);
    SendRequestFrameReadsBack(fr, txId, headers, contentType, data, firstByte, lastByte, totalSize,
                              failureReport, successReport);
  }

  /** The chunk is the body; Byte-Range and Content-Type follow the table's headers; the
      closing flag is '$' exactly when the range reaches the total size; the report headers
      come after Content-Type. */
  lemma SendRequestShape(txId: string, headers: seq<(string, string)>, contentType: string, data: Bytes,
                         firstByte: int, lastByte: int, totalSize: int,
                         failureReport: bool, successReport: bool)
    ensures var fr := SendRequest(txId, headers, contentType, data, firstByte, lastByte, totalSize,
                                  failureReport, successReport);
            && fr.txId == Utf8(txId) && fr.requestOrStatus == Utf8(METHOD_SEND)
            && fr.body == Some(data)
            && (fr.flag == FLAG_LAST_CHUNK <==> lastByte == totalSize)
            && (fr.flag == FLAG_MORE_CHUNK <==> lastByte != totalSize)
            && |fr.fields| >= |headers| + 2
            && fr.fields[..|headers|] == TextFields(headers)
            && fr.fields[|headers|] == TextField(HEADER_BYTE_RANGE, RangeText(firstByte, lastByte, totalSize))
            && fr.fields[|headers| + 1] == TextField(HEADER_CONTENT_TYPE, contentType)
            && fr.fields[|headers| + 2..] == OptionalHeaders(failureReport, successReport)
  {
    FieldsShape(TextFields(headers), TextField(HEADER_BYTE_RANGE, RangeText(firstByte, lastByte, totalSize)),
                TextField(HEADER_CONTENT_TYPE, contentType),
                if !failureReport then [FAILURE_REPORT_NO] else [],
                if successReport then [SUCCESS_REPORT_YES] else []);
  }

  /** The report headers of a SEND request, after Content-Type. */
  function OptionalHeaders(failureReport: bool, successReport: bool): (fs: seq<Field>)
    ensures FAILURE_REPORT_NO in fs <==> !failureReport
    ensures SUCCESS_REPORT_YES in fs <==> successReport
  {
    ReportHeadersDiffer();
    (if !failureReport then [FAILURE_REPORT_NO] else []) + (if successReport then [SUCCESS_REPORT_YES] else [])
  }

  lemma FieldsShape(fields: seq<Field>, first: Field, second: Field, more: seq<Field>, last: seq<Field>)
    ensures var all := fields + [first, second] + more + last;
            && |all| == |fields| + 2 + |more| + |last|
            && all[..|fields|] == fields && all[|fields|] == first && all[|fields| + 1] == second
            && all[|fields| + 2..] == more + last
  {
    var all := fields + [first, second] + more + last;
    assert all[..|fields|] == fields;
    assert all[|fields| + 2..] == more + last;
  }

  /** A transaction identifier as a peer may send it: no space, line break or colon. */
  predicate TokenSafe(s: string) {
    forall i :: 0 <= i < |s| ==> s[i] != ' ' && s[i] != '\r' && s[i] != ':'
  }

  lemma TokenBytesSafe(txId: string)
    requires TokenSafe(txId)
    ensures Excludes(Utf8(txId), SP) && Excludes(Utf8(txId), CR) && Excludes(Utf8(txId), COLON)
  {
    Utf8Excludes(txId, ' ');
    Utf8Excludes(txId, '\r');
    Utf8Excludes(txId, ':');
  }

  /** Header values that fit on one line each. */
  predicate ValuesSafe(headers: map<string, string>) {
    forall k :: k in headers ==> LineSafe(headers[k])
  }

  /** The response sendMsrpResponse writes: From-Path carries the request's To-Path, To-Path
      its From-Path, Byte-Range is echoed, there is no body and the flag is '$'. None where a
      header it looks up is absent from the table (a NullPointerException). */
  function Response(code: string, txId: string, headers: map<string, string>): Option<Frame> {
    if HEADER_TO_PATH in headers && HEADER_FROM_PATH in headers && HEADER_BYTE_RANGE in headers then
      Some(Frame(Utf8(txId), Utf8(code),
                 [TextField(HEADER_FROM_PATH, headers[HEADER_TO_PATH]),
                  TextField(HEADER_TO_PATH, headers[HEADER_FROM_PATH]),
                  TextField(HEADER_BYTE_RANGE, headers[HEADER_BYTE_RANGE])],
                 None, FLAG_LAST_CHUNK))
    else None
  }

  /** The success REPORT sendMsrpReportRequest writes for a delivered message: the Message-ID,
      the paths swapped, Byte-Range "1-lastByte/totalSize" and Status "000 200 OK". None where a
      header it looks up is absent. */
  function ReportRequest(txId: string, headers: map<string, string>, lastByte: int, totalSize: int): Option<Frame> {
    if HEADER_MESSAGE_ID in headers && HEADER_TO_PATH in headers && HEADER_FROM_PATH in headers then
      Some(Frame(Utf8(txId), Utf8(METHOD_REPORT),
                 [TextField(HEADER_MESSAGE_ID, headers[HEADER_MESSAGE_ID]),
                  TextField(HEADER_FROM_PATH, headers[HEADER_TO_PATH]),
                  TextField(HEADER_TO_PATH, headers[HEADER_FROM_PATH]),
                  TextField(HEADER_BYTE_RANGE, RangeText(1, lastByte, totalSize)),
                  TextField(HEADER_STATUS, STATUS_OK)],
                 None, FLAG_LAST_CHUNK))
    else None
  }

  /** A response exists exactly when the request carried both paths and a Byte-Range; on the
      wire it reads back as itself, a bodiless frame closed by '$' whose From-Path is the
      request's To-Path, whose To-Path is the request's From-Path and whose Byte-Range is the
      request's. */
  lemma ResponseOnWire(code: string, txId: string, headers: map<string, string>)
    requires TokenSafe(txId) && LineSafe(code) && ValuesSafe(headers)
    ensures Response(code, txId, headers).Some? <==>
              HEADER_TO_PATH in headers && HEADER_FROM_PATH in headers && HEADER_BYTE_RANGE in headers
    ensures match Response(code, txId, headers)
            case None => true
            case Some(fr) =>
              && Read(Layout(fr)) == Some(fr)
              && fr.requestOrStatus == Utf8(code) && fr.body == None && fr.flag == FLAG_LAST_CHUNK
              && fr.fields == [TextField(HEADER_FROM_PATH, headers[HEADER_TO_PATH]),
                               TextField(HEADER_TO_PATH, headers[HEADER_FROM_PATH]),
                               TextField(HEADER_BYTE_RANGE, headers[HEADER_BYTE_RANGE])]
  {
    match Response(code, txId, headers)
    case None =>
    case Some(fr) =>
      ResponseWellFormed(code, txId, headers);
      ReadLayout(fr);
  }

  lemma ResponseWellFormed(code: string, txId: string, headers: map<string, string>)
    requires TokenSafe(txId) && LineSafe(code) && ValuesSafe(headers)
    requires HEADER_TO_PATH in headers && HEADER_FROM_PATH in headers && HEADER_BYTE_RANGE in headers
    ensures WellFormed(Response(code, txId, headers).value)
  {
    TokenBytesSafe(txId);
    Utf8Excludes(code, '\r');
    ConstantNames();
    TextFieldSafe(HEADER_FROM_PATH, headers[HEADER_TO_PATH]);
    TextFieldSafe(HEADER_TO_PATH, headers[HEADER_FROM_PATH]);
    TextFieldSafe(HEADER_BYTE_RANGE, headers[HEADER_BYTE_RANGE]);
  }

  /** A REPORT exists exactly when the request carried a Message-ID and both paths; on the
      wire it reads back as itself, a bodiless REPORT closed by '$' whose Byte-Range reads back
      as (1, lastByte, totalSize) and whose Status is "000 200 OK". */
  lemma ReportOnWire(txId: string, headers: map<string, string>, lastByte: int, totalSize: int)
    requires TokenSafe(txId) && ValuesSafe(headers)
    ensures ReportRequest(txId, headers, lastByte, totalSize).Some? <==>
              HEADER_MESSAGE_ID in headers && HEADER_TO_PATH in headers && HEADER_FROM_PATH in headers
    ensures match ReportRequest(txId, headers, lastByte, totalSize)
            case None => true
            case Some(fr) =>
              && Read(Layout(fr)) == Some(fr)
              && fr.requestOrStatus == Utf8(METHOD_REPORT) && fr.body == None && fr.flag == FLAG_LAST_CHUNK
              && |fr.fields| == 5
              && fr.fields[0] == TextField(HEADER_MESSAGE_ID, headers[HEADER_MESSAGE_ID])
              && fr.fields[1] == TextField(HEADER_FROM_PATH, headers[HEADER_TO_PATH])
              && fr.fields[2] == TextField(HEADER_TO_PATH, headers[HEADER_FROM_PATH])
              && fr.fields[3] == TextField(HEADER_BYTE_RANGE, RangeText(1, lastByte, totalSize))
              && ParseByteRange(RangeText(1, lastByte, totalSize)) == Some((1, lastByte, totalSize))
              && fr.fields[4] == TextField(HEADER_STATUS, STATUS_OK)
  {
    match ReportRequest(txId, headers, lastByte, totalSize)
    case None =>
    case Some(fr) =>
      ReportWellFormed(txId, headers, lastByte, totalSize);
      ReadLayout(fr);
      RangeTextRoundTrip(1, lastByte, totalSize);
  }

  lemma ReportWellFormed(txId: string, headers: map<string, string>, lastByte: int, totalSize: int)
    requires TokenSafe(txId) && ValuesSafe(headers)
    requires HEADER_MESSAGE_ID in headers && HEADER_TO_PATH in headers && HEADER_FROM_PATH in headers
    ensures WellFormed(ReportRequest(txId, headers, lastByte, totalSize).value)
  {
    TokenBytesSafe(txId);
    Utf8Excludes(METHOD_REPORT, '\r');
    ConstantNames();
    TextFieldSafe(HEADER_MESSAGE_ID, headers[HEADER_MESSAGE_ID]);
    TextFieldSafe(HEADER_FROM_PATH, headers[HEADER_TO_PATH]);
    TextFieldSafe(HEADER_TO_PATH, headers[HEADER_FROM_PATH]);
    TextFieldSafe(HEADER_BYTE_RANGE, RangeText(1, lastByte, totalSize));
    TextFieldSafe(HEADER_STATUS, STATUS_OK);
  }

  // ---------------------------------------------------------------------------
  // The texts the session writes, as bytes

  lemma Separators()
    ensures Utf8(NEW_LINE) == CRLF && Utf8(" ") == [SP] && Utf8(": ") == [COLON, SP]
  {
    Utf8Ascii(NEW_LINE);
    Utf8Ascii(" ");
    Utf8Ascii(": ");
  }

  /** A header line written as one text ends up as the field's line. */
  lemma HeaderText(name: string, value: string)
    ensures Utf8(name + ": " + value) + CRLF == FieldLine(TextField(name, value))
    ensures Utf8(name + ": " + value + NEW_LINE) == FieldLine(TextField(name, value))
  {
    Separators();
    Utf8Append(name, ": ");
    Utf8Append(name + ": ", value);
    Utf8Append(name + ": " + value, NEW_LINE);
  }

  /** A request line's method written as " " + method. */
  lemma SpacedText(t: string)
    ensures Utf8(" " + t) == [SP] + Utf8(t)
  {
    Separators();
    Utf8Append(" ", t);
  }

  lemma {:induction false} FieldLinesAppend(a: seq<Field>, b: seq<Field>)
    ensures FieldLines(a + b) == FieldLines(a) + FieldLines(b)
  {
    if a != [] {
      assert (a + b)[1..] == a[1..] + b;
      FieldLinesAppend(a[1..], b);
    } else {
      assert a + b == b;
    }
  }

  lemma FieldLinesOne(f: Field)
    ensures FieldLines([f]) == FieldLine(f)
  {
    assert [f][1..] == [];
  }

  /** The start line as the writers put it down: protocol, a space, the identifier, then
      the method (or status) preceded by its space, then a line break. */
  lemma StartText(txId: string, requestOrStatus: string)
    ensures [] + Utf8(MSRP_PROTOCOL) + [SP] + Utf8(txId) + Utf8(" " + requestOrStatus) + Utf8(NEW_LINE)
            == StartLine(Utf8(txId), Utf8(requestOrStatus)) + CRLF
  {
    SpacedText(requestOrStatus);
    Separators();
    StartRegroup(Utf8(MSRP_PROTOCOL), Utf8(txId), Utf8(requestOrStatus));
  }

  lemma StartRegroup(protocol: Bytes, txId: Bytes, r: Bytes)
    ensures [] + protocol + [SP] + txId + ([SP] + r) + CRLF == protocol + [SP] + txId + [SP] + r + CRLF
  {
  }

  /** Writing a header text and then a line break adds that header's line. */
  lemma AppendHeaderLine(prefix: Bytes, fields: seq<Field>, name: string, value: string)
    ensures prefix + FieldLines(fields) + Utf8(name + ": " + value) + Utf8(NEW_LINE)
            == prefix + FieldLines(fields + [TextField(name, value)])
  {
    HeaderText(name, value);
    Separators();
    FieldLinesAppend(fields, [TextField(name, value)]);
    FieldLinesOne(TextField(name, value));
    Regroup(prefix, FieldLines(fields), Utf8(name + ": " + value), Utf8(NEW_LINE));
  }

  lemma Regroup(x: Bytes, a: Bytes, b: Bytes, c: Bytes)
    ensures x + a + b + c == x + (a + (b + c))
  {
  }

  /** Writing a header text that ends in its own line break adds that header's line. */
  lemma AppendHeader(prefix: Bytes, fields: seq<Field>, name: string, value: string)
    ensures prefix + FieldLines(fields) + Utf8(name + ": " + value + NEW_LINE)
            == prefix + FieldLines(fields + [TextField(name, value)])
  {
    HeaderText(name, value);
    FieldLinesAppend(fields, [TextField(name, value)]);
    FieldLinesOne(TextField(name, value));
    SeqAssoc(prefix, FieldLines(fields), Utf8(name + ": " + value + NEW_LINE));
  }

  /** Writing name, ": " and value one after another, then a line break, adds that header's line. */
  lemma AppendHeaderParts(prefix: Bytes, fields: seq<Field>, name: string, value: string)
    ensures prefix + FieldLines(fields) + Utf8(name) + [COLON] + [SP] + Utf8(value) + Utf8(NEW_LINE)
            == prefix + FieldLines(fields + [TextField(name, value)])
  {
    Separators();
    FieldLinesAppend(fields, [TextField(name, value)]);
    FieldLinesOne(TextField(name, value));
    PartsRegroup(prefix, FieldLines(fields), Utf8(name), Utf8(value));
  }

  lemma PartsRegroup(x: Bytes, a: Bytes, n: Bytes, v: Bytes)
    ensures x + a + n + [COLON] + [SP] + v + CRLF == x + (a + (n + [COLON, SP] + v + CRLF))
  {
  }

  /** The blank line, the body, a line break, then the end line and a final line break. */
  lemma BodyClosingText(headed: Bytes, data: Bytes, txId: string, flag: byte)
    ensures headed + Utf8(NEW_LINE) + data + Utf8(NEW_LINE) + Utf8(END_MSRP_MSG) + Utf8(txId) + [flag] + Utf8(NEW_LINE)
            == headed + Closing(Some(data), Utf8(txId), flag)
  {
    Separators();
    ClosingRegroup(headed, data, Utf8(END_MSRP_MSG), Utf8(txId), flag);
  }

  lemma ClosingRegroup(headed: Bytes, data: Bytes, marker: Bytes, txId: Bytes, flag: byte)
    ensures headed + CRLF + data + CRLF + marker + txId + [flag] + CRLF
            == headed + ((CRLF + data + CRLF) + (marker + txId + [flag]) + CRLF)
  {
  }

  /** The end line and a final line break, after the last header of a frame without body. */
  lemma ClosingText(headed: Bytes, txId: string, flag: byte)
    ensures headed + Utf8(END_MSRP_MSG) + Utf8(txId) + [flag] + Utf8(NEW_LINE)
            == headed + Closing(None, Utf8(txId), flag)
  {
    Separators();
    EndRegroup(headed, Utf8(END_MSRP_MSG), Utf8(txId), flag);
  }

  lemma EndRegroup(headed: Bytes, marker: Bytes, txId: Bytes, flag: byte)
    ensures headed + marker + txId + [flag] + CRLF == headed + ([] + (marker + txId + [flag]) + CRLF)
  {
  }

  /** The Byte-Range header as sendMsrpSendRequest writes it, numbers spliced into the text. */
  lemma RangeHeaderText(first: int, last: int, total: int)
    ensures Utf8(HEADER_BYTE_RANGE + ": " + Decimal(first) + "-" + Decimal(last) + "/" + Decimal(total) + NEW_LINE)
            == FieldLine(TextField(HEADER_BYTE_RANGE, RangeText(first, last, total)))
  {
    RangeRegroup(HEADER_BYTE_RANGE + ": ", Decimal(first), Decimal(last), Decimal(total), NEW_LINE);
    HeaderText(HEADER_BYTE_RANGE, RangeText(first, last, total));
  }

  lemma RangeRegroup(head: string, a: string, b: string, c: string, tail: string)
    ensures head + a + "-" + b + "/" + c + tail == head + (a + "-" + b + "/" + c) + tail
  {
  }

  /** Writing the bytes of a field's line adds that field. */
  lemma AppendLine(prefix: Bytes, fields: seq<Field>, f: Field, line: Bytes)
    requires line == FieldLine(f)
    ensures prefix + FieldLines(fields) + line == prefix + FieldLines(fields + [f])
  {
    FieldLinesAppend(fields, [f]);
    FieldLinesOne(f);
  }

  /** The lines of a header block made of a run of fields, two fixed fields and two more runs. */
  lemma FieldLinesParts(fields: seq<Field>, first: Field, second: Field, more: seq<Field>, last: seq<Field>)
    ensures FieldLines(fields + [first, second] + more + last)
            == FieldLines(fields) + FieldLine(first) + FieldLine(second) + FieldLines(more) + FieldLines(last)
  {
    FieldLinesAppend(fields + [first, second] + more, last);
    FieldLinesAppend(fields + [first, second], more);
    FieldLinesAppend(fields, [first, second]);
    FieldLinesTwo(first, second);
    PartsRegroup5(FieldLines(fields), FieldLine(first), FieldLine(second), FieldLines(more), FieldLines(last));
  }

  lemma FieldLinesTwo(first: Field, second: Field)
    ensures FieldLines([first, second]) == FieldLine(first) + FieldLine(second)
  {
    assert [first, second] == [first] + [second];
    FieldLinesAppend([first], [second]);
    FieldLinesOne(first);
    FieldLinesOne(second);
  }

  lemma PartsRegroup5(a: Bytes, b: Bytes, c: Bytes, d: Bytes, e: Bytes)
    ensures a + (b + c) + d + e == a + b + c + d + e
  {
  }

  /** A frame's bytes, regrouped line by line. */
  lemma LayoutRegroup(head: Bytes, a: Bytes, b: Bytes, c: Bytes, d: Bytes, e: Bytes, closing: Bytes)
    ensures head + (a + b + c + d + e) + closing == head + a + b + c + d + e + closing
  {
  }

  lemma TextFieldsSnoc(headers: seq<(string, string)>, k: nat)
    requires k < |headers|
    ensures TextFields(headers[..k + 1]) == TextFields(headers[..k]) + [TextField(headers[k].0, headers[k].1)]
  {
  }

  /** The start line of a response as sendMsrpResponse puts it down: protocol, a space, the
      identifier, a space, the status, then a line break. */
  lemma SpacedStartText(txId: string, status: string)
    ensures [] + Utf8(MSRP_PROTOCOL) + [SP] + Utf8(txId) + [SP] + Utf8(status) + Utf8(NEW_LINE)
            == StartLine(Utf8(txId), Utf8(status)) + CRLF
  {
    Separators();
    SpacedRegroup(Utf8(MSRP_PROTOCOL), Utf8(txId), Utf8(status));
  }

  lemma SpacedRegroup(protocol: Bytes, txId: Bytes, r: Bytes)
    ensures [] + protocol + [SP] + txId + [SP] + r + CRLF == protocol + [SP] + txId + [SP] + r + CRLF
  {
  }

  /** The byte range of a success report, written with a literal first byte 1. */
  lemma ReportRangeText(lastByte: int, totalSize: int)
    ensures "1-" + Decimal(lastByte) + "/" + Decimal(totalSize) == RangeText(1, lastByte, totalSize)
  {
    assert Decimal(1) == "1";
  }

  lemma FieldsThree(a: Field, b: Field, c: Field)
    ensures [] + [a] + [b] + [c] == [a, b, c]
  {
  }

  lemma FieldsFive(a: Field, b: Field, c: Field, d: Field, e: Field)
    ensures [] + [a] + [b] + [c] + [d] + [e] == [a, b, c, d, e]
  {
  }
}
