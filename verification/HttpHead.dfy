/** The head of a response as it is printed, and what the parser makes of it. */
module HttpHead {
  import opened Wrappers
  import opened AtParser
  import opened Bytes
  import opened Text
  import opened HttpParser
  import opened HttpStream
  import opened HttpBody

  // ---------------------------------------------------------------------------
  // A head in print
  // ---------------------------------------------------------------------------

  predicate NoUpper(s: string)
  {
    forall c <- s :: !('A' <= c <= 'Z')
  }

  /**
   A header line: its key in lower case, the name as it is shown, blanks around the colon
   and behind the value. `number` is what the value spells if it is a length.
   */
  datatype Field = Field(key: string, shown: string, gap: string, lead: string, value: string, trail: string, number: nat)

  predicate Spelled(f: Field)
  {
    && f.key != "" && NoUpper(f.key) && SameUpToCase(f.shown, f.key) && Solid(f.shown) && ':' !in f.shown
    && Blanks(f.gap) && Blanks(f.lead) && Blanks(f.trail) && Solid(f.value)
  }

  predicate FieldOk(f: Field)
  {
    && Spelled(f)
    && (f.key == "content-length" ==> f.number <= INT_MAX && f.value == Decimal(f.number))
  }

  function FieldText(f: Field): string
  {
    f.shown + (f.gap + (":" + (f.lead + (f.value + f.trail))))
  }

  datatype Head = Head(major: nat, minor: nat, code: nat, reason: string, gap: string, lead: string, trail: string, fields: seq<Field>)

  predicate HeadOk(h: Head)
  {
    && h.major <= INT_MAX && h.minor <= INT_MAX && h.code <= INT_MAX && Solid(h.reason)
    && Blanks(h.gap) && Blanks(h.lead) && Blanks(h.trail)
    && forall f <- h.fields :: FieldOk(f)
  }

  function CodeText(h: Head): string
  {
    Decimal(h.code) + if h.reason == "" then "" else " " + (h.lead + h.reason)
  }

  function VersionText(h: Head): string
  {
    Decimal(h.major) + ("." + Decimal(h.minor))
  }

  function StatusText(h: Head): string
  {
    "HTTP/" + (VersionText(h) + (" " + (h.gap + (CodeText(h) + h.trail))))
  }

  function FieldsText(fields: seq<Field>): string
  {
    if fields == [] then "\r\n" else FieldText(fields[0]) + "\r\n" + FieldsText(fields[1..])
  }

  function HeadText(h: Head): string
  {
    StatusText(h) + "\r\n" + FieldsText(h.fields)
  }

  // ---------------------------------------------------------------------------
  // What it says
  // ---------------------------------------------------------------------------

  /** Of two fields with one key the later one counts. */
  function HeadersOf(fields: seq<Field>): map<string, string>
  {
    if fields == [] then map[]
    else HeadersOf(fields[..|fields| - 1])[fields[|fields| - 1].key := fields[|fields| - 1].value]
  }

  function LengthOf(fields: seq<Field>): Option<nat>
  {
    if fields == [] then None
    else if fields[|fields| - 1].key == "content-length" then Some(fields[|fields| - 1].number)
    else LengthOf(fields[..|fields| - 1])
  }

  /** The value names the chunked coding somewhere, in any letter case. */
  ghost predicate MentionsChunked(value: string)
  {
    exists i :: ChunkedAt(value, i)
  }

  predicate ChunkedAt(value: string, i: int)
  {
    0 <= i <= |value| - 7 && SameUpToCase(value[i..i + 7], "chunked")
  }

  ghost predicate SaysChunked(fields: seq<Field>)
  {
    exists f <- fields :: f.key == "transfer-encoding" && MentionsChunked(f.value)
  }

  /** The parser behind the status line and some fields. */
  ghost function AfterFields(h: Head, fields: seq<Field>): Parser
  {
    var length := LengthOf(fields);
    Parser(Headers, "", h.major, h.minor, h.code, h.reason, HeadersOf(fields), "",
           if length.Some? then length.value else 0, length.Some?, SaysChunked(fields), 0, 0)
  }

  /** The parser behind the whole head: in a body of that length, in chunks, in a body to the end, or done. */
  ghost function AfterHead(h: Head): Parser
  {
    var length := LengthOf(h.fields);
    if SaysChunked(h.fields) then AfterFields(h, h.fields).(phase := ChunkSize)
    else if length == Some(0) then AfterFields(h, h.fields).(phase := Complete)
    else AfterFields(h, h.fields).(phase := Body, bodyRemaining := if length.Some? then length.value else 0)
  }

  // ---------------------------------------------------------------------------
  // Trimming and folding
  // ---------------------------------------------------------------------------

  lemma FoldsTo(shown: string, key: string)
    requires SameUpToCase(shown, key) && NoUpper(key)
    ensures ToLower(shown) == key
  {
    hide ToLower, SameUpToCase;
    LowerMeansSameUpToCase(shown, key);
    assert forall i :: 0 <= i < |key| ==> key[i] in key;
    LowerKeepsLower(key);
  }

  lemma {:induction false} ContainsAnywhere(s: string, needle: string)
    requires needle != ""
    ensures Contains(s, needle) <==> exists i :: 0 <= i <= |s| - |needle| && PrefixAt(s, i, needle)
  {
    if s == "" {
    } else {
      ContainsAnywhere(s[1..], needle);
      if StartsWith(s, needle) {
        assert PrefixAt(s, 0, needle);
      }
      if Contains(s[1..], needle) {
        var i :| 0 <= i <= |s[1..]| - |needle| && PrefixAt(s[1..], i, needle);
        assert s[1..][i..] == s[i + 1..];
        assert PrefixAt(s, i + 1, needle);
      }
      if exists i :: 0 <= i <= |s| - |needle| && PrefixAt(s, i, needle) {
        var i :| 0 <= i <= |s| - |needle| && PrefixAt(s, i, needle);
        if i > 0 {
          assert s[1..][i - 1..] == s[i..];
          assert PrefixAt(s[1..], i - 1, needle);
        } else {
          assert s[0..] == s;
        }
      }
    }
  }

  predicate PrefixAt(s: string, i: int, needle: string)
  {
    0 <= i <= |s| && needle <= s[i..]
  }

  lemma ChunkedIsFound(value: string)
    ensures Contains(ToLower(value), "chunked") <==> MentionsChunked(value)
  {
    hide Contains, ToLower, SameUpToCase;
    var low := ToLower(value);
    ContainsAnywhere(low, "chunked");
    LowerKeepsLower("chunked");
    forall i | 0 <= i <= |value| - 7 ensures PrefixAt(low, i, "chunked") <==> ChunkedAt(value, i) {
      assert ToLower(value[i..i + 7]) == low[i..i + 7];
      LowerMeansSameUpToCase(value[i..i + 7], "chunked");
      assert low[i..][..7] == low[i..i + 7];
    }
  }

  // ---------------------------------------------------------------------------
  // The lines
  // ---------------------------------------------------------------------------

  lemma NameHasNoColon(f: Field)
    requires ':' !in f.shown && Blanks(f.gap)
    ensures forall k :: 0 <= k < |f.shown + f.gap| ==> (f.shown + f.gap)[k] != ':'
  {
    var name := f.shown + f.gap;
    forall k | 0 <= k < |name| ensures name[k] != ':' {
      if k < |f.shown| {
        assert name[k] == f.shown[k] && f.shown[k] in f.shown;
      } else {
        assert name[k] == f.gap[k - |f.shown|];
      }
    }
  }

  lemma FieldHasNoLf(f: Field)
    requires Spelled(f)
    ensures FieldText(f) != "" && '\n' !in FieldText(f)
  {
    hide SameUpToCase, Decimal;
    assert '\n' !in f.gap && '\n' !in f.lead && '\n' !in f.trail;
  }

  lemma FieldIsRead(f: Field)
    requires Spelled(f)
    ensures ReadHeader(FieldText(f)) == Some((f.key, f.value))
    ensures FieldText(f) != "" && '\n' !in FieldText(f)
  {
    hide Find, Trim, ToLower, SameUpToCase, Decimal, Solid, Blanks, NoUpper;
    var name := f.shown + f.gap;
    var behind := f.lead + (f.value + f.trail);
    assert name + (":" + behind) == FieldText(f);
    NameHasNoColon(f);
    DividedAt(name, ':', behind);
    assert name == "" + (f.shown + f.gap);
    NoBlanks();
    TrimmedIs("", f.shown, f.gap);
    TrimmedIs(f.lead, f.value, f.trail);
    FoldsTo(f.shown, f.key);
    FieldHasNoLf(f);
  }

  lemma OkFieldIsRead(f: Field)
    requires FieldOk(f)
    ensures ReadHeader(FieldText(f)) == Some((f.key, f.value))
    ensures FieldText(f) != "" && '\n' !in FieldText(f)
  {
    FieldIsRead(f);
  }

  lemma NoBlanks()
    ensures Blanks("")
  {
  }

  lemma DigitsOnly(n: nat, c: char)
    requires !IsDigit(c)
    ensures forall k :: 0 <= k < |Decimal(n)| ==> Decimal(n)[k] != c
  {
    hide Decimal;
  }

  lemma VersionIsRead(h: Head)
    requires HeadOk(h)
    ensures var v := VersionText(h);
            && (forall k :: 0 <= k < |v| ==> v[k] != ' ' && v[k] != '\n')
            && var dot := Find(v, '.');
               dot < |v| && ParseInt(v[..dot]) == Some(h.major) && ParseInt(v[dot + 1..]) == Some(h.minor)
  {
    hide Decimal, ParseInt, Find;
    var v, a, b := VersionText(h), Decimal(h.major), Decimal(h.minor);
    DigitsOnly(h.major, '.');
    forall k | 0 <= k < |v| ensures v[k] != ' ' && v[k] != '\n' && (k < |a| ==> v[k] != '.') {
      if k < |a| {
        assert v[k] == a[k] && IsDigit(a[k]);
      } else if k > |a| {
        assert v[k] == b[k - |a| - 1] && IsDigit(b[k - |a| - 1]);
      }
    }
    assert v[|a|] == '.';
    FindAt(v, '.', |a|);
    assert v[..|a|] == a && v[|a| + 1..] == b;
    ParseUndoesDecimal(h.major);
    ParseUndoesDecimal(h.minor);
  }

  lemma CodeIsRead(h: Head)
    requires HeadOk(h)
    ensures var r := CodeText(h);
            && Solid(r) && r != ""
            && var end := Find(r, ' ');
               && ParseInt(r[..end]) == Some(h.code)
               && h.reason == if end == |r| then "" else Trim(r[end + 1..])
  {
    hide Decimal, ParseInt, Find, Trim, Blanks;
    var r, d := CodeText(h), Decimal(h.code);
    DigitsOnly(h.code, ' ');
    DigitsOnly(h.code, '\n');
    ParseUndoesDecimal(h.code);
    assert IsDigit(d[0]) && IsDigit(d[|d| - 1]);
    if h.reason == "" {
      assert r == d;
      FindNone(r, ' ');
      assert r[..|r|] == d;
    } else {
      var behind := h.lead + h.reason;
      assert r == d + (" " + behind);
      DividedAt(d, ' ', behind);
      assert h.reason + "" == h.reason;
      NoBlanks();
      TrimmedIs(h.lead, h.reason, "");
      TextIsSolid(h);
    }
  }

  lemma TextIsSolid(h: Head)
    requires HeadOk(h) && h.reason != ""
    ensures Solid(CodeText(h))
  {
    hide Decimal;
    var r, d := CodeText(h), Decimal(h.code);
    assert r[0] == d[0] && IsDigit(d[0]) && r[|r| - 1] == h.reason[|h.reason| - 1];
    DigitsOnly(h.code, '\n');
    assert '\n' !in d && '\n' !in h.lead;
  }

  lemma StatusIsRead(h: Head)
    requires HeadOk(h)
    ensures ReadStatusLine(StatusText(h)) == GoodStatus(h.major, h.minor, h.code, h.reason)
    ensures '\n' !in StatusText(h)
  {
    hide Decimal, ParseInt, Find, Trim, VersionText, CodeText, Solid, Blanks;
    var v, r := VersionText(h), CodeText(h);
    var behind := h.gap + (r + h.trail);
    var rest := v + (" " + behind);
    assert StatusText(h) == "HTTP/" + rest;
    assert ("HTTP/" + rest)[..5] == "HTTP/" && ("HTTP/" + rest)[5..] == rest;
    VersionIsRead(h);
    CodeIsRead(h);
    DividedAt(v, ' ', behind);
    TrimmedIs(h.gap, r, h.trail);
    StatusHasNoLf(h);
  }

  lemma StatusHasNoLf(h: Head)
    requires HeadOk(h) && Solid(CodeText(h))
    requires forall k :: 0 <= k < |VersionText(h)| ==> VersionText(h)[k] != '\n'
    ensures '\n' !in StatusText(h)
  {
    hide VersionText, CodeText;
    assert '\n' !in h.gap && '\n' !in h.trail && '\n' !in "HTTP/";
  }

  // ---------------------------------------------------------------------------
  // The head
  // ---------------------------------------------------------------------------

  /** A whole CRLF line in front of a stream is one turn of the plain reading. */
  lemma LineTurn(p: Parser, text: string, x: string)
    requires LinePhase(p.phase) && '\n' !in text && OnLine(p, text, |text| + 2).Advance?
    ensures var q := OnLine(p, text, |text| + 2).p;
            && Parse(p, text + "\r\n" + x) == Parse(q, x)
            && (Clean(p, text + "\r\n" + x) <==> Clean(q, x))
  {
    hide OnLine, Parse, Clean;
    var l := Line(text, true);
    PlainLineOf(l, x);
    assert LineBytes(l) + x == text + "\r\n" + x;
    var s := text + "\r\n" + x;
    assert s[|text| + 2..] == x;
    OneTurn(p, s, text, |text| + 2);
  }

  lemma OneTurn(p: Parser, s: string, text: string, n: nat)
    requires LinePhase(p.phase) && PlainLine(s) == Some((text, n)) && n > 0 && CleanLine(s)
    requires OnLine(p, text, n).Advance?
    ensures var q := OnLine(p, text, n).p; Parse(p, s) == Parse(q, s[n..]) && (Clean(p, s) <==> Clean(q, s[n..]))
  {
    hide OnLine, CleanLine, TakeLine;
  }

  lemma FieldTurn(h: Head, fields: seq<Field>, f: Field)
    requires FieldOk(f)
    ensures OnLine(AfterFields(h, fields), FieldText(f), |FieldText(f)| + 2) == Advance(AfterFields(h, fields + [f]), |FieldText(f)| + 2)
  {
    hide ReadHeader, Contains, ToLower, ParseInt, Decimal, FieldText, FieldOk, MentionsChunked;
    var p, more := AfterFields(h, fields), fields + [f];
    OkFieldIsRead(f);
    ChunkedIsFound(f.value);
    LengthIsRead(f);
    assert more[..|more| - 1] == fields && more[|more| - 1] == f;
    SaysChunkedSnoc(fields, f);
  }

  lemma LengthIsRead(f: Field)
    requires FieldOk(f)
    ensures f.key == "content-length" ==> ParseInt(f.value) == Some(f.number)
  {
    hide ParseInt, Decimal;
    if f.key == "content-length" {
      ParseUndoesDecimal(f.number);
    }
  }

  lemma SaysChunkedSnoc(fields: seq<Field>, f: Field)
    ensures SaysChunked(fields + [f]) <==> SaysChunked(fields) || (f.key == "transfer-encoding" && MentionsChunked(f.value))
  {
    hide MentionsChunked;
    assert f in fields + [f];
    assert forall g :: g in fields + [f] <==> g in fields || g == f;
  }

  lemma {:induction false} FieldsTurn(h: Head, done: seq<Field>, fields: seq<Field>, x: string)
    requires done + fields == h.fields && forall f <- fields :: FieldOk(f)
    ensures Parse(AfterFields(h, done), FieldsText(fields) + x) == Parse(AfterHead(h), x)
    ensures Clean(AfterFields(h, done), FieldsText(fields) + x) <==> Clean(AfterHead(h), x)
    decreases |fields|
  {
    hide Parse, Clean, FieldOk, FieldText, AfterFields, AfterHead;
    if fields == [] {
      assert done == h.fields;
      BlankTurn(h);
      LineTurn(AfterFields(h, done), "", x);
      assert "" + "\r\n" + x == FieldsText(fields) + x;
    } else {
      var f, rest := fields[0], FieldsText(fields[1..]) + x;
      FieldTurn(h, done, f);
      OkFieldIsRead(f);
      InHeaders(h, done);
      LineTurn(AfterFields(h, done), FieldText(f), rest);
      assert FieldsText(fields) + x == FieldText(f) + "\r\n" + rest;
      assert done + [f] + fields[1..] == h.fields;
      FieldsTurn(h, done + [f], fields[1..], x);
    }
  }

  lemma InHeaders(h: Head, fields: seq<Field>)
    ensures AfterFields(h, fields).phase == Headers
  {
  }

  lemma BlankTurn(h: Head)
    ensures AfterFields(h, h.fields).phase == Headers
    ensures OnLine(AfterFields(h, h.fields), "", 2) == Advance(AfterHead(h), 2)
  {
    hide SaysChunked, LengthOf, HeadersOf;
  }

  lemma StatusTurn(h: Head)
    requires HeadOk(h)
    ensures OnLine(Fresh, StatusText(h), |StatusText(h)| + 2) == Advance(AfterFields(h, []), |StatusText(h)| + 2)
  {
    hide ReadStatusLine, StatusText;
    StatusIsRead(h);
  }

  lemma HeadTurn(h: Head, x: string)
    requires HeadOk(h)
    ensures Parse(Fresh, HeadText(h) + x) == Parse(AfterHead(h), x)
    ensures Clean(Fresh, HeadText(h) + x) <==> Clean(AfterHead(h), x)
  {
    hide Parse, Clean, StatusText, FieldsText, AfterFields, AfterHead, FieldOk;
    StatusTurn(h);
    StatusIsRead(h);
    LineTurn(Fresh, StatusText(h), FieldsText(h.fields) + x);
    assert HeadText(h) + x == StatusText(h) + "\r\n" + (FieldsText(h.fields) + x);
    assert [] + h.fields == h.fields;
    FieldsTurn(h, [], h.fields, x);
  }

  /**
   A response head is read as it is printed. Whatever the numbers, the reason and the
   fields, with blanks wherever they may stand, names in any letter case, and the bytes
   cut in any way: the parser holds that version, status, reason and header map, the
   length or the chunked coding the fields state, and waits in the body they call for.
   */
  lemma HeadIsRead(h: Head, pieces: seq<string>)
    requires HeadOk(h) && Flatten(pieces) == HeadText(h)
    ensures FedAll(Fresh, pieces) == AfterHead(h)
  {
    hide FedAll, HeadText, AfterHead, HeadOk;
    assert HeadText(h) + "" == HeadText(h);
    HeadTurn(h, "");
    NothingBehind(AfterHead(h));
    assert Fresh.bank + Flatten(pieces) == Flatten(pieces);
    FreshRests();
    SplitInvariance(Fresh, pieces);
    NoBank(h);
  }

  lemma NoBank(h: Head)
    ensures AfterHead(h).bank == ""
  {
  }

  lemma NothingBehind(p: Parser)
    ensures Parse(p, "") == Stopped(p, "") && Clean(p, "")
  {
  }

  lemma FreshRests()
    ensures Resting(Fresh)
  {
  }

  /** And so is a whole response: what follows the head is read from where the head leaves off. */
  lemma BodyFollowsHead(h: Head, x: string, pieces: seq<string>)
    requires HeadOk(h) && Flatten(pieces) == HeadText(h) + x && Clean(AfterHead(h), x)
    ensures FedAll(Fresh, pieces) == Settled(Parse(AfterHead(h), x))
  {
    hide FedAll, HeadText, AfterHead, HeadOk, Settled;
    HeadTurn(h, x);
    assert Fresh.bank + Flatten(pieces) == Flatten(pieces);
    FreshRests();
    SplitInvariance(Fresh, pieces);
  }

  // ---------------------------------------------------------------------------
  // What it does not read
  // ---------------------------------------------------------------------------

  /** A line that is none of the printed forms ends the response in an error, and changes nothing. */
  lemma BadLinesAreRefused(p: Parser, line: string, n: nat)
    requires LinePhase(p.phase)
    ensures p.phase == StatusLine && (|line| < 5 || line[..5] != "HTTP/" || ' ' !in line) ==> OnLine(p, line, n) == Malformed(p)
    ensures p.phase == Headers && line != "" && ':' !in line ==> OnLine(p, line, n) == Malformed(p)
    ensures p.phase == Headers && line != "" && line[0] == ':' ==> OnLine(p, line, n) == Malformed(p)
    ensures p.phase == ChunkSize && Blanks(line) ==> OnLine(p, line, n) == Malformed(p)
  {
    hide ParseInt, ToLower, Contains;
    if p.phase == StatusLine && |line| >= 5 && line[..5] == "HTTP/" && ' ' !in line {
      FindNone(line[5..], ' ');
    } else if p.phase == Headers && line != "" {
      if ':' !in line {
        FindNone(line, ':');
      } else if line[0] == ':' {
        assert line[..0] == "";
      }
    } else if p.phase == ChunkSize && Blanks(line) {
      NoBlanks();
      assert line + ("" + "") == line;
      TrimmedIs(line, "", "");
    }
  }

  /** A length that is no number, or more than an int holds, is an error, whatever stands around it. */
  lemma BadLengthIsRefused(p: Parser, f: Field, n: nat)
    requires p.phase == Headers && Spelled(f) && f.key == "content-length"
    requires
      || f.value == ""
      || (f.value[0] != '-' && exists c <- f.value :: !('0' <= c <= '9'))
      || (f.number > 0x7FFF_FFFF && f.value == Decimal(f.number))
    ensures OnLine(p, FieldText(f), n) == Malformed(p)
  {
    hide Spelled, FieldText, Decimal, ReadHeader, NumberOf;
    FieldIsRead(f);
    ParseUndoesDecimal(f.number);
  }
}
