/**
 The text message with which the client asks the daemon for an operation: six named fields, an absent
 one written as "-". The client formats it, the daemon parses it.
 */
module RpcMessage {
  datatype Field = Absent | Text(s: string)

  /** `struct mem_proj` on the client's side, `struct server_rpc_params` on the daemon's. */
  datatype Project = Project(projName: Field, fileName: Field, cmd: int, engName: Field, engCmd: Field, taskName: Field)

  const FIELDS := 6
  const CMD := 2
  const SEND_BUF_LEN := 512
  const INT_MAX_LEN := 9
  const INT_MIN := -0x8000_0000
  const INT_MAX := 0x7fff_ffff
  const TEMPLATE := "proj_name %s " + "file_name %s " + "cmd %d " + "eng_name %s " + "eng_cmd %s " + "task_name %s"

  function Name(i: nat): (n: string)
    requires i < FIELDS
    ensures n != [] && n[0] in "pfcet"
  {
    match i
    case 0 => "proj_name"
    case 1 => "file_name"
    case 2 => "cmd"
    case 3 => "eng_name"
    case 4 => "eng_cmd"
    case _ => "task_name"
  }

  function FieldOf(p: Project, i: nat): Field
    requires i < FIELDS && i != CMD
  {
    match i
    case 0 => p.projName
    case 1 => p.fileName
    case 3 => p.engName
    case 4 => p.engCmd
    case _ => p.taskName
  }

  function WithField(p: Project, i: nat, f: Field): (q: Project)
    requires i < FIELDS && i != CMD
    ensures q.cmd == p.cmd
    ensures forall k :: 0 <= k < FIELDS && k != CMD ==> FieldOf(q, k) == if k == i then f else FieldOf(p, k)
  {
    match i
    case 0 => p.(projName := f)
    case 1 => p.(fileName := f)
    case 3 => p.(engName := f)
    case 4 => p.(engCmd := f)
    case _ => p.(taskName := f)
  }

  const NOTHING := Project(Absent, Absent, 0, Absent, Absent, Absent)

  // ----- numbers

  function Digits(n: nat): (s: string)
    ensures |s| > 0 && forall i :: 0 <= i < |s| ==> '0' <= s[i] <= '9'
  {
    var d := ('0' as int + n % 10) as char;
    if n < 10 then [d] else Digits(n / 10) + [d]
  }

  /** `%d`. */
  function Decimal(n: int): string {
    if n < 0 then "-" + Digits(-n) else Digits(n)
  }

  predicate IsDigits(s: string) {
    s != [] && forall i :: 0 <= i < |s| ==> '0' <= s[i] <= '9'
  }

  function DigitsValue(s: string): (v: int)
    requires forall i :: 0 <= i < |s| ==> '0' <= s[i] <= '9'
    ensures v >= 0
  {
    if s == [] then 0 else 10 * DigitsValue(s[..|s| - 1]) + (s[|s| - 1] as int - '0' as int)
  }

  datatype Number = Bad | Good(value: int)

  predicate IsSpace(c: char) {
    c == ' ' || c == '\t' || c == '\n' || c == '\r' || c as int == 11 || c as int == 12
  }

  function SkipSpace(s: string): string {
    if s != [] && IsSpace(s[0]) then SkipSpace(s[1..]) else s
  }

  /** `get_int_value`: white space, a sign, digits, nothing else, and within the range of `int`; no text at all
      reads as zero. */
  function IntValue(s: string): Number {
    var t := SkipSpace(s);
    var signed := t != [] && (t[0] == '-' || t[0] == '+');
    var digits := if signed then t[1..] else t;
    if s == [] then Good(0)
    else if !IsDigits(digits) then Bad
    else
      var v := if signed && t[0] == '-' then -DigitsValue(digits) else DigitsValue(digits);
      if INT_MIN <= v <= INT_MAX then Good(v) else Bad
  }

  // ----- the client

  function Shown(f: Field): string {
    if f.Absent? then "-" else f.s
  }

  function Value(p: Project, i: nat): string
    requires i < FIELDS
  {
    if i == CMD then Decimal(p.cmd) else Shown(FieldOf(p, i))
  }

  /** The message from field `i` on. */
  function MessageFrom(p: Project, i: nat): string
    requires i < FIELDS
    decreases FIELDS - i
  {
    Name(i) + " " + Value(p, i) + if i + 1 < FIELDS then " " + MessageFrom(p, i + 1) else ""
  }

  function Message(p: Project): string {
    MessageFrom(p, 0)
  }

  /** `sprintf`: every conversion of the template is replaced by the next value. */
  function Formatted(t: string, vs: seq<string>): string
    decreases |t|
  {
    if t == [] then []
    else if t[0] == '%' && |t| > 1 && vs != [] then vs[0] + Formatted(t[2..], vs[1..])
    else [t[0]] + Formatted(t[1..], vs)
  }

  function Conversion(i: nat): string {
    if i == CMD then "%d" else "%s"
  }

  /** The template from field `i` on. */
  function TemplateFrom(i: nat): string
    requires i < FIELDS
    decreases FIELDS - i
  {
    Name(i) + " " + Conversion(i) + if i + 1 < FIELDS then " " + TemplateFrom(i + 1) else ""
  }

  function ValuesFrom(p: Project, i: nat): seq<string>
    requires i <= FIELDS
    decreases FIELDS - i
  {
    if i == FIELDS then [] else [Value(p, i)] + ValuesFrom(p, i + 1)
  }

  lemma {:induction false} PlainText(a: string, b: string, vs: seq<string>)
    requires '%' !in a
    ensures Formatted(a + b, vs) == a + Formatted(b, vs)
  {
    if a == [] {
      assert a + b == b;
    } else {
      assert (a + b)[0] == a[0] && (a + b)[1..] == a[1..] + b;
      PlainText(a[1..], b, vs);
    }
  }

  lemma OneConversion(i: nat, b: string, v: string, vs: seq<string>)
    ensures Formatted(Conversion(i) + b, [v] + vs) == v + Formatted(b, vs)
  {
    assert (Conversion(i) + b)[2..] == b && ([v] + vs)[1..] == vs;
  }

  lemma NoPercent(i: nat)
    requires i < FIELDS
    ensures '%' !in Name(i) + " "
  {
  }

  lemma FormatField(name: string, i: nat, tail: string, v: string, vs: seq<string>)
    requires '%' !in name
    ensures Formatted(name + Conversion(i) + tail, [v] + vs) == name + v + Formatted(tail, vs)
  {
    hide Formatted;
    hide Conversion;
    assert name + Conversion(i) + tail == name + (Conversion(i) + tail);
    PlainText(name, Conversion(i) + tail, [v] + vs);
    OneConversion(i, tail, v, vs);
    assert name + (v + Formatted(tail, vs)) == name + v + Formatted(tail, vs);
  }

  lemma {:induction false} FormatFrom(p: Project, i: nat)
    requires i < FIELDS
    ensures Formatted(TemplateFrom(i), ValuesFrom(p, i)) == MessageFrom(p, i)
    decreases FIELDS - i
  {
    hide Formatted;
    hide Conversion;
    hide Value;
    hide Name;
    var vs := ValuesFrom(p, i + 1);
    NoPercent(i);
    if i + 1 < FIELDS {
      FormatFrom(p, i + 1);
      PlainText(" ", TemplateFrom(i + 1), vs);
      FormatField(Name(i) + " ", i, " " + TemplateFrom(i + 1), Value(p, i), vs);
    } else {
      NothingToFormat(vs);
      FormatField(Name(i) + " ", i, "", Value(p, i), vs);
    }
  }

  lemma NothingToFormat(vs: seq<string>)
    ensures Formatted("", vs) == ""
  {
  }

  /** The message is the client's template with the values of the fields, in the order of the template. */
  lemma MessageIsTemplate(p: Project)
    ensures Message(p)
         == Formatted(TEMPLATE, [Shown(p.projName), Shown(p.fileName), Decimal(p.cmd), Shown(p.engName), Shown(p.engCmd), Shown(p.taskName)])
  {
    hide Formatted;
    hide MessageFrom;
    hide Decimal;
    FormatFrom(p, 0);
    TemplateIs();
    ValuesAre(p);
  }

  lemma TemplateStep(i: nat, text: string)
    requires i + 1 < FIELDS && text == Name(i) + " " + Conversion(i) + " "
    ensures TemplateFrom(i) == text + TemplateFrom(i + 1)
  {
    hide Name;
    hide Conversion;
    assert TemplateFrom(i) == Name(i) + " " + Conversion(i) + (" " + TemplateFrom(i + 1));
  }

  lemma SixPieces(a: string, b: string, c: string, d: string, e: string, f: string)
    ensures a + (b + (c + (d + (e + f)))) == a + b + c + d + e + f
  {
  }

  lemma TemplateIs()
    ensures TemplateFrom(0) == TEMPLATE
  {
    hide TemplateFrom;
    TemplateStep(0, "proj_name %s ");
    TemplateStep(1, "file_name %s ");
    TemplateStep(2, "cmd %d ");
    TemplateStep(3, "eng_name %s ");
    TemplateStep(4, "eng_cmd %s ");
    LastPiece();
    SixPieces("proj_name %s ", "file_name %s ", "cmd %d ", "eng_name %s ", "eng_cmd %s ", "task_name %s");
  }

  lemma LastPiece()
    ensures TemplateFrom(5) == "task_name %s"
  {
  }

  lemma ValuesAre(p: Project)
    ensures ValuesFrom(p, 0)
         == [Shown(p.projName), Shown(p.fileName), Decimal(p.cmd), Shown(p.engName), Shown(p.engCmd), Shown(p.taskName)]
  {
    hide Shown;
    hide Decimal;
    assert ValuesFrom(p, 6) == [];
    assert ValuesFrom(p, 4) == [Shown(p.engCmd), Shown(p.taskName)];
    assert ValuesFrom(p, 2) == [Decimal(p.cmd), Shown(p.engName)] + ValuesFrom(p, 4);
  }

  function PresentLen(f: Field): nat {
    if f.Absent? then 0 else |f.s|
  }

  /** `etmem_client_get_str_len`. */
  function BufferLen(p: Project): nat {
    |TEMPLATE| + INT_MAX_LEN + 1
    + PresentLen(p.projName) + PresentLen(p.fileName) + PresentLen(p.engName) + PresentLen(p.engCmd) + PresentLen(p.taskName)
  }

  datatype Sent = Refused | Sent(msg: string)

  /** `etmem_client_send`: a message longer than the receive buffer is not sent. */
  method Send(p: Project) returns (r: Sent)
    requires INT_MIN <= p.cmd <= INT_MAX
    ensures r == if |Message(p)| > SEND_BUF_LEN then Refused else Sent(Message(p))
    ensures r.Sent? ==> |r.msg| < BufferLen(p)
  {
    BufferSuffices(p);
    var text := Message(p);
    if |text| > SEND_BUF_LEN {
      return Refused;
    }
    r := Sent(text);
  }

  lemma {:induction false} DigitsLen(n: nat, k: nat, bound: nat)
    requires k > 0 && n < bound && bound == Pow10(k)
    ensures |Digits(n)| <= k
    decreases k
  {
    if n >= 10 {
      assert k > 1;
      DigitsLen(n / 10, k - 1, Pow10(k - 1));
    }
  }

  function Pow10(k: nat): nat {
    if k == 0 then 1 else 10 * Pow10(k - 1)
  }

  lemma DecimalLen(n: int)
    requires INT_MIN <= n <= INT_MAX
    ensures |Decimal(n)| <= 11
  {
    assert Pow10(5) == 100000;
    assert Pow10(10) == 10000000000;
    DigitsLen(if n < 0 then -n else n, 10, Pow10(10));
  }

  function AbsentCount(f: Field): nat {
    if f.Absent? then 1 else 0
  }

  /** The computed length always leaves room for the message and its terminator; how much depends on the
      number of absent fields and the length of the command only. */
  lemma BufferSuffices(p: Project)
    requires INT_MIN <= p.cmd <= INT_MAX
    ensures |Message(p)| < BufferLen(p)
    ensures BufferLen(p) == |Message(p)| + 22 - |Decimal(p.cmd)|
      - AbsentCount(p.projName) - AbsentCount(p.fileName) - AbsentCount(p.engName) - AbsentCount(p.engCmd) - AbsentCount(p.taskName)
  {
    hide Decimal;
    hide MessageFrom;
    hide Value;
    hide Name;
    hide PresentLen;
    DecimalLen(p.cmd);
    LenFrom(p, 0);
    LenFrom(p, 1);
    LenFrom(p, 2);
    LenFrom(p, 3);
    LenFrom(p, 4);
    LenFrom(p, 5);
    NameLens();
    ValueLens(p);
    TemplateLen();
  }

  lemma NameLens()
    ensures |Name(0)| == 9 && |Name(1)| == 9 && |Name(2)| == 3 && |Name(3)| == 8 && |Name(4)| == 7 && |Name(5)| == 9
  {
  }

  lemma ValueLens(p: Project)
    ensures |Value(p, 0)| == PresentLen(p.projName) + AbsentCount(p.projName)
    ensures |Value(p, 1)| == PresentLen(p.fileName) + AbsentCount(p.fileName)
    ensures |Value(p, 2)| == |Decimal(p.cmd)|
    ensures |Value(p, 3)| == PresentLen(p.engName) + AbsentCount(p.engName)
    ensures |Value(p, 4)| == PresentLen(p.engCmd) + AbsentCount(p.engCmd)
    ensures |Value(p, 5)| == PresentLen(p.taskName) + AbsentCount(p.taskName)
  {
    hide Decimal;
  }

  lemma TemplateLen()
    ensures |TEMPLATE| == 68
  {
  }

  lemma LenFrom(p: Project, i: nat)
    requires i < FIELDS
    ensures |MessageFrom(p, i)| == |Name(i)| + 1 + |Value(p, i)| + if i + 1 < FIELDS then 1 + |MessageFrom(p, i + 1)| else 0
  {
    hide Value;
    hide Name;
  }

  // ----- the daemon

  /** The receive buffer: zeros behind the message. */
  function CharAt(buf: string, i: nat): char {
    if i < |buf| then buf[i] else '\0'
  }

  predicate NameAt(buf: string, idx: nat, name: string) {
    forall k :: 0 <= k < |name| ==> CharAt(buf, idx + k) == name[k]
  }

  /** The first blank from `i` on, or the end of the message. */
  function TokenEnd(buf: string, i: nat): (e: nat)
    requires i <= |buf|
    ensures i <= e <= |buf|
    ensures forall k :: i <= k < e ==> buf[k] != ' '
    ensures e < |buf| ==> buf[e] == ' '
    decreases |buf| - i
  {
    if i == |buf| || buf[i] == ' ' then i else TokenEnd(buf, i + 1)
  }

  datatype Step = Fail | Go(params: Project, idx: nat)

  /** `etmemd_rpc_decode`: a dash leaves the field absent, a value must not be empty. */
  function Decoded(buf: string, idx: nat, i: nat, params: Project): Step
    requires i < FIELDS
  {
    if CharAt(buf, idx) == '-' then Go(params, idx + 2)
    else if idx >= |buf| || TokenEnd(buf, idx) == idx then Fail
    else
      var e := TokenEnd(buf, idx);
      var token := buf[idx..e];
      if i != CMD then Go(WithField(params, i, Text(token)), e + 1)
      else match IntValue(token)
        case Bad => Fail
        case Good(v) => Go(params.(cmd := v), e + 1)
  }

  datatype Parsed = Error | Parsed(params: Project)

  /** `etmemd_rpc_parse` from field `i` on. */
  function ParseFrom(buf: string, idx: nat, i: nat, params: Project): Parsed
    requires i <= FIELDS
    decreases FIELDS - i
  {
    if i == FIELDS then Parsed(params)
    else if idx >= |buf| || !NameAt(buf, idx, Name(i)) then Error
    else match Decoded(buf, idx + |Name(i)| + 1, i, params)
      case Fail => Error
      case Go(q, next) => ParseFrom(buf, next, i + 1, q)
  }

  function Parse(buf: string): Parsed {
    ParseFrom(buf, 0, 0, NOTHING)
  }

  class Server {
    /** `g_rpc_params`, and the index that the parser advances over the buffer. */
    var params: Project
    var idx: nat

    constructor ()
      ensures params == NOTHING && idx == 0
    {
      params, idx := NOTHING, 0;
    }

    /** `etmemd_rpd_get_param_str`: the text up to the next blank; none when it is empty. */
    method GetParamStr(buf: string) returns (token: string)
      modifies this`idx
      ensures old(idx) >= |buf| || TokenEnd(buf, old(idx)) == old(idx) ==> token == "" && idx == old(idx)
      ensures old(idx) < |buf| && TokenEnd(buf, old(idx)) > old(idx) ==>
        token == buf[old(idx)..TokenEnd(buf, old(idx))] && idx == TokenEnd(buf, old(idx)) + 1
    {
      var start := idx;
      while start < |buf| && buf[start] != ' '
        invariant start >= idx && idx == old(idx) && (idx > |buf| ==> start == idx)
        invariant idx <= |buf| ==> start <= |buf| && TokenEnd(buf, idx) == TokenEnd(buf, start)
      {
        start := start + 1;
      }
      if start == idx {
        return "";
      }
      token := buf[idx..start];
      idx := start + 1;
    }

    /** `etmemd_rpc_decode`. */
    method Decode(buf: string, i: nat) returns (ret: int)
      requires i < FIELDS
      modifies this
      ensures ret == 0 || ret == -1
      ensures match Decoded(buf, old(idx), i, old(params))
        case Fail => ret == -1
        case Go(q, next) => ret == 0 && params == q && idx == next
    {
      hide IntValue;
      hide TokenEnd;
      if CharAt(buf, idx) == '-' {
        idx := idx + 2;
        return 0;
      }
      var token := GetParamStr(buf);
      if token == "" {
        return -1;
      }
      if i != CMD {
        params := WithField(params, i, Text(token));
        return 0;
      }
      match IntValue(token) {
        case Bad => return -1;
        case Good(v) =>
          params := params.(cmd := v);
          return 0;
      }
    }

    method CompareName(buf: string, name: string) returns (same: bool)
      ensures same == NameAt(buf, idx, name)
    {
      for k := 0 to |name|
        invariant forall j :: 0 <= j < k ==> CharAt(buf, idx + j) == name[j]
      {
        if CharAt(buf, idx + k) != name[k] {
          return false;
        }
      }
      same := true;
    }

    /** `etmemd_rpc_parse`. */
    method ParseMessage(buf: string) returns (ret: int)
      modifies this
      ensures ret == 0 || ret == -1
      ensures match Parse(buf)
        case Error => ret == -1
        case Parsed(p) => ret == 0 && params == p
    {
      hide Decoded;
      hide NameAt;
      hide Name;
      params, idx := NOTHING, 0;
      ret := -1;
      for i := 0 to FIELDS
        invariant ParseFrom(buf, idx, i, params) == Parse(buf)
        invariant ret == if i == 0 then -1 else 0
      {
        if idx >= |buf| {
          return -1;
        }
        var same := CompareName(buf, Name(i));
        if !same {
          return -1;
        }
        idx := idx + |Name(i)| + 1;
        ret := Decode(buf, i);
        if ret != 0 {
          return;
        }
      }
    }
  }

  // ----- round trip

  predicate Writable(f: Field) {
    f.Text? ==> f.s != [] && f.s[0] != '-' && forall i :: 0 <= i < |f.s| ==> f.s[i] != ' '
  }

  predicate WritableProject(p: Project) {
    && Writable(p.projName) && Writable(p.fileName) && Writable(p.engName) && Writable(p.engCmd) && Writable(p.taskName)
    && p.cmd >= 0
  }

  /** Field `i` comes back when it can be written. */
  ghost predicate FieldWritable(p: Project, i: nat)
    requires i < FIELDS
  {
    if i == CMD then p.cmd >= 0 else Writable(FieldOf(p, i))
  }

  /** `q` has the fields of `p` before `i`, and nothing from `i` on. */
  ghost predicate Filled(p: Project, q: Project, i: nat)
    requires i <= FIELDS
  {
    && (forall k :: 0 <= k < FIELDS && k != CMD ==> FieldOf(q, k) == if k < i then FieldOf(p, k) else Absent)
    && q.cmd == if i > CMD then p.cmd else 0
  }

  lemma {:induction false} DigitsBack(n: nat)
    ensures DigitsValue(Digits(n)) == n
  {
    var s := Digits(n);
    if n < 10 {
      assert s[..0] == [];
    } else {
      DigitsBack(n / 10);
      assert s[..|s| - 1] == Digits(n / 10);
    }
  }

  /** Text in front of which no white space stands, with its sign if it has one. */
  lemma Signed(sign: string, s: string)
    requires IsDigits(s) && sign in {"", "-", "+"}
    ensures var v := if sign == "-" then -DigitsValue(s) else DigitsValue(s);
      IntValue(sign + s) == if INT_MIN <= v <= INT_MAX then Good(v) else Bad
  {
    hide DigitsValue;
    var t := sign + s;
    assert '0' <= s[0] <= '9';
    assert SkipSpace(t) == t;
    if sign == "" {
      assert t == s;
    } else {
      assert t[1..] == s && t[0] == sign[0];
    }
  }

  /** Every number is read back from its decimal form, also behind a plus sign, exactly when it is an `int`. */
  lemma DecimalBack(n: int)
    ensures IntValue(Decimal(n)) == if INT_MIN <= n <= INT_MAX then Good(n) else Bad
    ensures n >= 0 ==> IntValue("+" + Decimal(n)) == IntValue(Decimal(n))
  {
    hide DigitsValue;
    hide IntValue;
    hide Digits;
    var s := Digits(if n < 0 then -n else n);
    DigitsBack(if n < 0 then -n else n);
    assert "" + s == s;
    Signed(if n < 0 then "-" else "", s);
    Signed("+", s);
  }

  /** White space in front makes no difference: blanks, tabs, line ends, and the two feeds. */
  lemma SpacesSkipped(c: char, s: string)
    requires s != []
    ensures c as int == 32 || 9 <= c as int <= 13 ==> IntValue([c] + s) == IntValue(s)
  {
    assert ([c] + s)[1..] == s;
  }

  /** A token in front of a blank, or at the end of the message. */
  lemma TokenRead(buf: string, idx: nat, token: string)
    requires idx + |token| <= |buf| && buf[idx..idx + |token|] == token
    requires forall i :: 0 <= i < |token| ==> token[i] != ' '
    requires idx + |token| < |buf| ==> buf[idx + |token|] == ' '
    ensures TokenEnd(buf, idx) == idx + |token|
  {
    hide TokenEnd;
    var e := TokenEnd(buf, idx);
    forall k | idx <= k < idx + |token|
      ensures buf[k] != ' '
    {
      assert buf[k] == buf[idx..idx + |token|][k - idx] == token[k - idx];
    }
    assert e >= idx + |token|;
    assert !(e > idx + |token|);
  }

  /** The text of a value: no blank in it, and a dash in front exactly when the field is absent. */
  lemma ValueShape(p: Project, i: nat)
    requires i < FIELDS && FieldWritable(p, i)
    ensures var v := Value(p, i);
      && v != [] && (forall k :: 0 <= k < |v| ==> v[k] != ' ')
      && (v[0] == '-' <==> i != CMD && FieldOf(p, i).Absent?) && (v[0] == '-' ==> |v| == 1)
  {
  }

  /** Where field `i` stands in the message. */
  ghost predicate StandsAt(buf: string, idx: nat, p: Project, i: nat)
    requires i < FIELDS
  {
    idx <= |buf| && buf[idx..] == MessageFrom(p, i)
  }

  lemma Layout(buf: string, idx: nat, p: Project, i: nat)
    requires i < FIELDS && StandsAt(buf, idx, p, i)
    ensures var at := idx + |Name(i)| + 1; var v := Value(p, i);
      && idx < |buf| && NameAt(buf, idx, Name(i))
      && at + |v| <= |buf| && buf[at..at + |v|] == v
      && (i + 1 == FIELDS ==> at + |v| == |buf|)
      && (i + 1 < FIELDS ==> at + |v| < |buf| && buf[at + |v|] == ' ' && StandsAt(buf, at + |v| + 1, p, i + 1))
  {
    hide Value;
    hide Name;
    var n, v := Name(i), Value(p, i);
    var tail := if i + 1 < FIELDS then " " + MessageFrom(p, i + 1) else "";
    var rest := buf[idx..];
    assert rest == n + " " + v + tail;
    hide MessageFrom;
    assert forall k :: 0 <= k < |rest| ==> rest[k] == buf[idx + k];
    assert forall k :: 0 <= k < |n| ==> rest[k] == n[k];
    var at := idx + |n| + 1;
    assert buf[at..at + |v|] == rest[|n| + 1..|n| + 1 + |v|] == v;
    if i + 1 < FIELDS {
      assert rest[|n| + 1 + |v|] == tail[0];
      assert buf[at + |v| + 1..] == rest[|n| + 1 + |v| + 1..] == tail[1..] == MessageFrom(p, i + 1);
    }
  }

  /** One field of a well-formed message is read back, and the next one stands where the parser goes on. */
  lemma FieldBack(buf: string, idx: nat, p: Project, i: nat, q: Project)
    requires i < FIELDS && StandsAt(buf, idx, p, i) && FieldWritable(p, i) && Filled(p, q, i) && p.cmd <= INT_MAX
    ensures idx < |buf| && NameAt(buf, idx, Name(i))
    ensures var d := Decoded(buf, idx + |Name(i)| + 1, i, q);
      && d.Go? && Filled(p, d.params, i + 1) && (i + 1 < FIELDS ==> StandsAt(buf, d.idx, p, i + 1))
  {
    hide NameAt;
    hide StandsAt;
    hide IntValue;
    hide Decimal;
    Layout(buf, idx, p, i);
    ValueShape(p, i);
    var at := idx + |Name(i)| + 1;
    var v := Value(p, i);
    assert buf[at] == buf[at..at + |v|][0] == v[0];
    if v[0] == '-' {
      FilledField(p, q, i);
    } else {
      TokenRead(buf, at, v);
      if i == CMD {
        DecimalBack(p.cmd);
        FilledCmd(p, q);
      } else {
        FilledField(p, q, i);
      }
    }
  }

  lemma FilledField(p: Project, q: Project, i: nat)
    requires i < FIELDS && i != CMD && Filled(p, q, i)
    ensures Filled(p, WithField(q, i, FieldOf(p, i)), i + 1)
    ensures FieldOf(p, i).Absent? ==> Filled(p, q, i + 1)
  {
  }

  lemma FilledCmd(p: Project, q: Project)
    requires Filled(p, q, CMD)
    ensures Filled(p, q.(cmd := p.cmd), CMD + 1)
  {
    var r := q.(cmd := p.cmd);
    forall k | 0 <= k < FIELDS && k != CMD
      ensures FieldOf(r, k) == FieldOf(q, k)
    {
    }
  }

  lemma {:induction false} AllBack(buf: string, idx: nat, p: Project, i: nat, q: Project)
    requires i <= FIELDS && (i < FIELDS ==> StandsAt(buf, idx, p, i)) && Filled(p, q, i) && WritableProject(p) && p.cmd <= INT_MAX
    ensures ParseFrom(buf, idx, i, q) == Parsed(p)
    decreases FIELDS - i
  {
    hide StandsAt;
    hide NameAt;
    hide Decoded;
    if i < FIELDS {
      FieldBack(buf, idx, p, i, q);
      var d := Decoded(buf, idx + |Name(i)| + 1, i, q);
      AllBack(buf, d.idx, p, i + 1, d.params);
    } else {
      SameFields(p, q);
    }
  }

  lemma SameFields(p: Project, q: Project)
    requires Filled(p, q, FIELDS)
    ensures p == q
  {
    assert FieldOf(q, 0) == FieldOf(p, 0) && FieldOf(q, 1) == FieldOf(p, 1) && FieldOf(q, 3) == FieldOf(p, 3)
      && FieldOf(q, 4) == FieldOf(p, 4) && FieldOf(q, 5) == FieldOf(p, 5);
  }

  // ----- and nothing else comes back

  /** What the parser stores is always writable text. */
  lemma DecodedWritable(buf: string, idx: nat, i: nat, q: Project)
    requires i < FIELDS && forall k :: 0 <= k < FIELDS && k != CMD ==> Writable(FieldOf(q, k))
    ensures var d := Decoded(buf, idx, i, q);
      d.Go? ==> forall k :: 0 <= k < FIELDS && k != CMD ==> Writable(FieldOf(d.params, k))
  {
    hide IntValue;
    hide TokenEnd;
    if idx < |buf| {
      var token := buf[idx..TokenEnd(buf, idx)];
      assert forall k :: 0 <= k < |token| ==> token[k] == buf[idx + k];
      if i == CMD {
        forall v: int, k | 0 <= k < FIELDS && k != CMD
          ensures FieldOf(q.(cmd := v), k) == FieldOf(q, k)
        {
        }
      }
    }
  }

  lemma {:induction false} ParsedWritable(buf: string, idx: nat, i: nat, q: Project)
    requires i <= FIELDS && forall k :: 0 <= k < FIELDS && k != CMD ==> Writable(FieldOf(q, k))
    ensures var r := ParseFrom(buf, idx, i, q);
      r.Parsed? ==> forall k :: 0 <= k < FIELDS && k != CMD ==> Writable(FieldOf(r.params, k))
    decreases FIELDS - i
  {
    hide Decoded;
    hide Writable;
    hide NameAt;
    if i < FIELDS {
      var at := idx + |Name(i)| + 1;
      DecodedWritable(buf, at, i, q);
      var d := Decoded(buf, at, i, q);
      if d.Go? {
        ParsedWritable(buf, d.idx, i + 1, d.params);
      }
    }
  }

  lemma SliceAt(buf: string, at: nat, v: string, k: nat)
    requires at + |v| <= |buf| && buf[at..at + |v|] == v && k < |v|
    ensures buf[at + k] == v[k]
  {
    assert buf[at..at + |v|][k] == buf[at + k];
  }

  lemma NegativeShape(n: int)
    requires n < 0
    ensures |Decimal(n)| > 1 && Decimal(n)[0] == '-' && forall k :: 0 < k < |Decimal(n)| ==> '0' <= Decimal(n)[k] <= '9'
  {
  }

  lemma WrongName(buf: string, idx: nat)
    requires CharAt(buf, idx) != 'e'
    ensures !NameAt(buf, idx, Name(CMD + 1))
  {
    assert CharAt(buf, idx + 0) != Name(CMD + 1)[0];
  }

  /** Two characters behind a negative command's dash there is a digit or a blank, but no name. */
  lemma AfterDash(buf: string, at: nat, v: string)
    requires at + |v| < |buf| && buf[at..at + |v|] == v && buf[at + |v|] == ' '
    requires |v| > 1 && v[0] == '-' && forall k :: 0 < k < |v| ==> '0' <= v[k] <= '9'
    ensures CharAt(buf, at) == '-' && CharAt(buf, at + 2) != 'e'
  {
    SliceAt(buf, at, v, 0);
    if |v| > 2 {
      SliceAt(buf, at, v, 2);
    }
  }

  lemma DashSkips(buf: string, at: nat, i: nat, q: Project)
    requires i < FIELDS && CharAt(buf, at) == '-'
    ensures Decoded(buf, at, i, q) == Go(q, at + 2)
  {
    hide TokenEnd;
    hide IntValue;
  }

  lemma CmdThenError(buf: string, idx: nat, q: Project)
    requires var at := idx + |Name(CMD)| + 1;
      Decoded(buf, at, CMD, q) == Go(q, at + 2) && !NameAt(buf, at + 2, Name(CMD + 1))
    ensures ParseFrom(buf, idx, CMD, q) == Error
  {
    hide Decoded;
    hide NameAt;
    var at := idx + |Name(CMD)| + 1;
    assert ParseFrom(buf, at + 2, CMD + 1, q) == Error;
  }

  /** A negative command is taken for an absent one and throws the parser off. */
  lemma NegativeRefused(buf: string, idx: nat, p: Project, q: Project)
    requires StandsAt(buf, idx, p, CMD) && p.cmd < 0
    ensures ParseFrom(buf, idx, CMD, q) == Error
  {
    hide ParseFrom;
    hide Decoded;
    hide MessageFrom;
    hide StandsAt;
    hide Decimal;
    hide NameAt;
    Layout(buf, idx, p, CMD);
    var at := idx + |Name(CMD)| + 1;
    NegativeShape(p.cmd);
    AfterDash(buf, at, Value(p, CMD));
    DashSkips(buf, at, CMD, q);
    WrongName(buf, at + 2);
    CmdThenError(buf, idx, q);
  }

  lemma NothingFilled(p: Project)
    ensures Filled(p, NOTHING, 0)
  {
  }

  /**
   For every project record: parsing its message gives back the record, absent fields absent, exactly
   when every present field is non-empty, holds no blank and does not start with a dash, and the command
   is not negative.
   */
  lemma RoundTrip(p: Project)
    requires INT_MIN <= p.cmd <= INT_MAX
    ensures Parse(Message(p)) == Parsed(p) <==> WritableProject(p)
  {
    hide ParseFrom;
    hide MessageFrom;
    hide Writable;
    var buf := Message(p);
    assert buf[0..] == buf;
    NothingFilled(p);
    if WritableProject(p) {
      AllBack(buf, 0, p, 0, NOTHING);
    } else if Parse(buf) == Parsed(p) {
      NothingWritable();
      ParsedWritable(buf, 0, 0, NOTHING);
      assert Writable(FieldOf(p, 0)) && Writable(FieldOf(p, 1)) && Writable(FieldOf(p, 3));
      assert Writable(FieldOf(p, 4)) && Writable(FieldOf(p, 5));
      NegativeLost(p);
    }
  }

  lemma NothingWritable()
    ensures forall k :: 0 <= k < FIELDS && k != CMD ==> Writable(FieldOf(NOTHING, k))
  {
  }

  lemma NegativeLost(p: Project)
    requires p.cmd < 0 && Writable(p.projName) && Writable(p.fileName)
    ensures Parse(Message(p)) == Error
  {
    hide Decoded;
    hide NameAt;
    hide MessageFrom;
    hide Writable;
    var buf := Message(p);
    assert buf[0..] == buf;
    NothingFilled(p);
    FieldBack(buf, 0, p, 0, NOTHING);
    var d := Decoded(buf, |Name(0)| + 1, 0, NOTHING);
    FieldBack(buf, d.idx, p, 1, d.params);
    var e := Decoded(buf, d.idx + |Name(1)| + 1, 1, d.params);
    NegativeRefused(buf, e.idx, p, e.params);
    assert ParseFrom(buf, d.idx, 1, d.params) == ParseFrom(buf, e.idx, 2, e.params);
    assert ParseFrom(buf, 0, 0, NOTHING) == ParseFrom(buf, d.idx, 1, d.params);
  }

  /** For one, a project named "-" is not read back. */
  lemma DashIsLost(p: Project)
    requires p.projName == Text("-") && INT_MIN <= p.cmd <= INT_MAX
    ensures Parse(Message(p)) != Parsed(p)
  {
    hide Parse;
    hide Message;
    RoundTrip(p);
  }
}
