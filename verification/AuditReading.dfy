/**
 Reading a serialized audit event back (the `Serialize` and `Deserialize` of `Event`
 in `src/audit.rs`, on the text that is written): nothing of an event is lost in its
 line, so a parser as the queries need it exists.
 */
module AuditReading {
  import opened Wrappers
  import opened AuditText

  function Skip(text: string, prefix: string): Option<string> {
    if prefix <= text then Some(text[|prefix|..]) else None
  }

  lemma Skips(prefix: string, rest: string)
    ensures Skip(prefix + rest, prefix) == Some(rest)
  {
  }

  function HexValue(c: char): nat {
    if '0' <= c <= '9' then c as int - 48 else if 'a' <= c <= 'f' then c as int - 87 else 0
  }

  /** The character that an escape stands for, and what follows it; the backslash is already read. */
  function ReadEscape(text: string): Option<(char, string)> {
    if text == "" then None
    else
      match text[0]
      case '"' => Some(('"', text[1..]))
      case '\\' => Some(('\\', text[1..]))
      case 'b' => Some((8 as char, text[1..]))
      case 'f' => Some((12 as char, text[1..]))
      case 'n' => Some(('\n', text[1..]))
      case 'r' => Some(('\r', text[1..]))
      case 't' => Some(('\t', text[1..]))
      case 'u' =>
        if |text| < 5 then None else Some(((HexValue(text[3]) * 16 + HexValue(text[4])) as char, text[5..]))
      case _ => None
  }

  /** Quoted text up to its closing quote, and what follows that. */
  function ReadString(text: string): Option<(string, string)>
    decreases |text|
  {
    if text == "" then None
    else if text[0] == '"' then Some(("", text[1..]))
    else if text[0] == '\\' then
      match ReadEscape(text[1..])
      case Some((c, more)) =>
        if |more| >= |text| then None
        else (match ReadString(more)
          case Some((s, rest)) => Some(([c] + s, rest))
          case None => None)
      case None => None
    else
      match ReadString(text[1..])
      case Some((s, rest)) => Some(([text[0]] + s, rest))
      case None => None
  }

  lemma HexReads(n: nat)
    requires n < 16
    ensures HexValue(Hex(n)) == n
  {
  }

  lemma EscapeReads(c: char, rest: string)
    requires !IsPlainChar(c)
    ensures EscapeChar(c)[0] == '\\' && ReadEscape((EscapeChar(c) + rest)[1..]) == Some((c, rest))
  {
    var text := (EscapeChar(c) + rest)[1..];
    if c as int >= 32 || c as int in {8, 9, 10, 12, 13} {
      assert text == [EscapeChar(c)[1]] + rest;
    } else {
      HexReads(c as int / 16);
      HexReads(c as int % 16);
      assert text == ['u', '0', '0', Hex(c as int / 16), Hex(c as int % 16)] + rest;
    }
  }

  /** Escaped text, closed by a quote, reads back as the text it was, whatever follows. */
  lemma {:induction false} ReadsString(s: string, rest: string)
    ensures ReadString(Escape(s) + "\"" + rest) == Some((s, rest))
  {
    var text := Escape(s) + "\"" + rest;
    if s == "" {
      assert text == "\"" + rest;
    } else {
      var more := Escape(s[1..]) + "\"" + rest;
      ReadsString(s[1..], rest);
      assert text == EscapeChar(s[0]) + more;
      assert [s[0]] + s[1..] == s;
      if IsPlainChar(s[0]) {
        assert text[1..] == more;
      } else {
        EscapeReads(s[0], more);
        assert |more| < |text| && text[1..] == (EscapeChar(s[0]) + more)[1..];
      }
    }
  }

  // ---- optional fields -------------------------------------------------------------------

  function Key(name: string): string {
    ",\"" + name + "\":\""
  }

  function ReadField(name: string, text: string): (Option<string>, string) {
    match Skip(text, Key(name))
    case None => (None, text)
    case Some(quoted) =>
      match ReadString(quoted)
      case Some((value, rest)) => (Some(value), rest)
      case None => (None, text)
  }

  function ReadFields(names: seq<string>, text: string): (seq<Option<string>>, string) {
    if |names| == 0 then ([], text)
    else
      var (value, rest) := ReadField(names[0], text);
      var (values, end) := ReadFields(names[1..], rest);
      ([value] + values, end)
  }

  lemma DiffersAt(p: string, text: string, k: nat)
    requires k < |p| && (k >= |text| || p[k] != text[k])
    ensures !(p <= text)
  {
  }

  /** Keys of different names are no prefixes of each other. */
  lemma KeysDiffer(name: string, other: string, rest: string)
    requires name != other && '"' !in name && '"' !in other
    ensures !(Key(name) <= Key(other) + rest)
  {
    var p, text := Key(name), Key(other) + rest;
    assert forall i :: 0 <= i < |name| ==> p[i + 2] == name[i] && name[i] in name;
    assert forall i :: 0 <= i < |other| ==> text[i + 2] == other[i] && other[i] in other;
    assert p[|name| + 2] == '"' && text[|other| + 2] == '"';
    if |name| < |other| {
      DiffersAt(p, text, |name| + 2);
    } else if |name| > |other| {
      DiffersAt(p, text, |other| + 2);
    } else {
      var i :| 0 <= i < |name| && name[i] != other[i];
      DiffersAt(p, text, i + 2);
    }
  }

  predicate AreNames(pairs: seq<(string, Option<string>)>) {
    && (forall i :: 0 <= i < |pairs| ==> '"' !in pairs[i].0)
    && (forall i, j :: 0 <= i < j < |pairs| ==> pairs[i].0 != pairs[j].0)
  }

  /** A key that is none of the names is not what the fields start with. */
  lemma {:induction false} NotNext(name: string, pairs: seq<(string, Option<string>)>)
    requires '"' !in name && forall i :: 0 <= i < |pairs| ==> '"' !in pairs[i].0 && pairs[i].0 != name
    ensures !(Key(name) <= Fields(pairs) + "}")
  {
    if |pairs| == 0 {
      DiffersAt(Key(name), Fields(pairs) + "}", 0);
    } else if pairs[0].1.None? {
      assert Fields(pairs) == Fields(pairs[1..]);
      hide Key, Fields;
      NotNext(name, pairs[1..]);
    } else {
      var rest := Escape(pairs[0].1.value) + "\"" + Fields(pairs[1..]) + "}";
      FirstField(pairs);
      hide Key, Fields;
      KeysDiffer(name, pairs[0].0, rest);
    }
  }

  lemma FirstField(pairs: seq<(string, Option<string>)>)
    requires |pairs| > 0 && pairs[0].1.Some?
    ensures Fields(pairs) + "}" == Key(pairs[0].0) + (Escape(pairs[0].1.value) + "\"" + Fields(pairs[1..]) + "}")
  {
    var name, value := pairs[0].0, pairs[0].1.value;
    assert Fields(pairs) == OptionalField(name, Some(value)) + Fields(pairs[1..]);
    KeyFirst(name, value);
    hide Key, Fields, OptionalField, Escape;
    Regroup(Key(name), Escape(value) + "\"", Fields(pairs[1..]), "}");
  }

  lemma KeyFirst(name: string, value: string)
    ensures OptionalField(name, Some(value)) == Key(name) + (Escape(value) + "\"")
  {
    hide Escape;
  }

  lemma Regroup(a: string, b: string, c: string, d: string)
    ensures a + b + c + d == a + (b + c + d)
  {
  }

  lemma ReadsField(name: string, value: Option<string>, rest: string)
    requires !(Key(name) <= rest)
    ensures ReadField(name, OptionalField(name, value) + rest) == (value, rest)
  {
    if value.None? {
      assert OptionalField(name, value) + rest == rest;
    } else {
      var quoted := Escape(value.value) + "\"" + rest;
      ReadsString(value.value, rest);
      Skips(Key(name), quoted);
      assert OptionalField(name, value) + rest == Key(name) + quoted;
    }
  }

  function Names(pairs: seq<(string, Option<string>)>): seq<string> {
    seq(|pairs|, i requires 0 <= i < |pairs| => pairs[i].0)
  }

  function Values(pairs: seq<(string, Option<string>)>): seq<Option<string>> {
    seq(|pairs|, i requires 0 <= i < |pairs| => pairs[i].1)
  }

  lemma {:induction false} ReadsFields(pairs: seq<(string, Option<string>)>)
    requires AreNames(pairs)
    ensures ReadFields(Names(pairs), Fields(pairs) + "}") == (Values(pairs), "}")
  {
    hide ReadField, OptionalField;
    if |pairs| == 0 {
      assert Fields(pairs) + "}" == "}";
    } else {
      var rest := Fields(pairs[1..]) + "}";
      assert Fields(pairs) + "}" == OptionalField(pairs[0].0, pairs[0].1) + rest;
      assert Names(pairs)[0] == pairs[0].0 && Names(pairs)[1..] == Names(pairs[1..]);
      assert [pairs[0].1] + Values(pairs[1..]) == Values(pairs);
      NotNext(pairs[0].0, pairs[1..]);
      ReadsField(pairs[0].0, pairs[0].1, rest);
      ReadsFields(pairs[1..]);
      hide Fields, Names, Values;
    }
  }

  // ---- the whole line ----------------------------------------------------------------------

  const NAMES := ["item_id", "item_name", "account", "field", "origin", "reason", "version", "client"]

  /** A member that is always there, and what follows its closing quote. */
  function ReadMember(text: string, prefix: string): Option<(string, string)> {
    match Skip(text, prefix)
    case Some(quoted) => ReadString(quoted)
    case None => None
  }

  lemma ReadsMember(prefix: string, value: string, rest: string)
    ensures ReadMember(prefix + (Escape(value) + "\"" + rest), prefix) == Some((value, rest))
  {
    Skips(prefix, Escape(value) + "\"" + rest);
    ReadsString(value, rest);
  }

  function ReadEvent(line: string): Option<Event> {
    match ReadMember(line, "{\"timestamp\":\"")
    case None => None
    case Some((timestamp, t)) =>
      match ReadMember(t, ",\"actor\":\"")
      case None => None
      case Some((actor, u)) =>
        match ReadMember(u, ",\"operation\":\"")
        case None => None
        case Some((operation, v)) =>
          match ReadMember(v, ",\"outcome\":\"")
          case None => None
          case Some((outcome, w)) => EventOf(timestamp, actor, operation, outcome, ReadFields(NAMES, w))
  }

  function EventOf(
    timestamp: string, actor: string, operation: string, outcome: string, read: (seq<Option<string>>, string))
    : Option<Event>
  {
    var (f, end) := read;
    if |f| != 8 || end != "}" then None
    else Some(Event(timestamp, actor, operation, outcome, f[0], f[1], f[2], f[3], f[4], f[5], f[6], f[7]))
  }

  lemma NamesOfOptional(e: Event)
    ensures Names(Optional(e)) == NAMES && AreNames(Optional(e))
  {
    var pairs := Optional(e);
    assert "item_id"[5] != "item_name"[5] && |"account"| == |"version"| && "account"[0] != "version"[0];
    assert "field"[0] == 'f' && "origin"[0] == 'o' && "reason"[0] == 'r' && "client"[0] == 'c';
    assert |"client"| != |"account"| && "item_id"[0] == 'i';
    assert forall i :: 0 <= i < |pairs| ==> '"' !in pairs[i].0;
  }

  /** Every event reads back from its line. */
  lemma ReadsEvent(e: Event)
    ensures ReadEvent(Serialize(e)) == Some(e)
  {
    var w := Fields(Optional(e)) + "}";
    var v := ",\"outcome\":\"" + (Escape(e.outcome) + "\"" + w);
    var u := ",\"operation\":\"" + (Escape(e.operation) + "\"" + v);
    var t := ",\"actor\":\"" + (Escape(e.actor) + "\"" + u);
    LineParts(e, t, u, v, w);
    ReadsMember("{\"timestamp\":\"", e.timestamp, t);
    ReadsMember(",\"actor\":\"", e.actor, u);
    ReadsMember(",\"operation\":\"", e.operation, v);
    ReadsMember(",\"outcome\":\"", e.outcome, w);
    NamesOfOptional(e);
    ReadsFields(Optional(e));
    hide ReadMember, ReadFields, Serialize, Escape, Fields;
  }

  lemma LineParts(e: Event, t: string, u: string, v: string, w: string)
    requires w == Fields(Optional(e)) + "}"
    requires v == ",\"outcome\":\"" + (Escape(e.outcome) + "\"" + w)
    requires u == ",\"operation\":\"" + (Escape(e.operation) + "\"" + v)
    requires t == ",\"actor\":\"" + (Escape(e.actor) + "\"" + u)
    ensures Serialize(e) == "{\"timestamp\":\"" + (Escape(e.timestamp) + "\"" + t)
  {
    hide Escape, Fields;
    assert Tail(e) == "\"" + v;
  }

  /** So no two events share a line. */
  lemma SerializesApart(a: Event, b: Event)
    ensures Serialize(a) == Serialize(b) ==> a == b
  {
    ReadsEvent(a);
    ReadsEvent(b);
  }
}
