/**
 One line of the audit log (`Event` and `line_operation` in `src/audit.rs`) as
 the JSON text the writer produces, and the textual prefilter of the reader.
 */
module AuditText {
  import opened Wrappers
  import opened Bytes

  datatype Event = Event(
    timestamp: string,
    actor: string,
    operation: string,
    outcome: string,
    itemId: Option<string>,
    itemName: Option<string>,
    account: Option<string>,
    field: Option<string>,
    origin: Option<string>,
    reason: Option<string>,
    version: Option<string>,
    client: Option<string>)

  // ---- writing a line ---------------------------------------------------------------

  function Hex(n: nat): char
    requires n < 16
  {
    if n < 10 then (n + 48) as char else (n + 87) as char
  }

  /** Characters that JSON text keeps as they are. */
  predicate IsPlainChar(c: char) {
    c != '"' && c != '\\' && c >= ' '
  }

  function EscapeChar(c: char): string {
    if IsPlainChar(c) then [c]
    else if c == '"' then "\\\""
    else if c == '\\' then "\\\\"
    else if c as int == 8 then "\\b"
    else if c as int == 12 then "\\f"
    else if c == '\n' then "\\n"
    else if c == '\r' then "\\r"
    else if c == '\t' then "\\t"
    else "\\u00" + [Hex(c as int / 16), Hex(c as int % 16)]
  }

  function Escape(s: string): string {
    if s == "" then "" else EscapeChar(s[0]) + Escape(s[1..])
  }

  function OptionalField(name: string, value: Option<string>): string {
    if value.None? then "" else ",\"" + name + "\":\"" + Escape(value.value) + "\""
  }

  function Fields(pairs: seq<(string, Option<string>)>): string {
    if |pairs| == 0 then "" else OptionalField(pairs[0].0, pairs[0].1) + Fields(pairs[1..])
  }

  /** The fields that are left out when absent, in the order they are written. */
  function Optional(e: Event): seq<(string, Option<string>)> {
    [("item_id", e.itemId), ("item_name", e.itemName), ("account", e.account), ("field", e.field),
     ("origin", e.origin), ("reason", e.reason), ("version", e.version), ("client", e.client)]
  }

  function Tail(e: Event): string {
    "\",\"outcome\":\"" + Escape(e.outcome) + "\"" + Fields(Optional(e)) + "}"
  }

  /** The key, colon and opening quote that the prefilter looks for. */
  const MARK := "\"operation\":\""

  function Serialize(e: Event): string {
    "{\"timestamp\":" + (['"'] + Escape(e.timestamp) + "\"," +
    ("\"actor\":" + (['"'] + Escape(e.actor) + "\"," + (MARK + (Escape(e.operation) + Tail(e))))))
  }

  /** No character of this text needs escaping on a line of its own. */
  predicate IsPrintable(s: string) {
    forall c :: c in s ==> c >= ' '
  }

  lemma {:induction false} EscapeIsPrintable(s: string)
    ensures IsPrintable(Escape(s))
  {
    if s != "" {
      EscapeIsPrintable(s[1..]);
      assert IsPrintable(EscapeChar(s[0]));
    }
  }

  lemma FieldIsPrintable(name: string, value: Option<string>)
    requires IsPrintable(name)
    ensures IsPrintable(OptionalField(name, value))
  {
    if value.Some? { EscapeIsPrintable(value.value); }
  }

  lemma {:induction false} FieldsArePrintable(pairs: seq<(string, Option<string>)>)
    requires forall p :: p in pairs ==> IsPrintable(p.0)
    ensures IsPrintable(Fields(pairs))
  {
    if |pairs| > 0 {
      FieldIsPrintable(pairs[0].0, pairs[0].1);
      FieldsArePrintable(pairs[1..]);
    }
  }

  lemma TailIsPrintable(e: Event)
    ensures IsPrintable(Tail(e))
  {
    hide Fields, Escape;
    EscapeIsPrintable(e.outcome);
    FieldsArePrintable(Optional(e));
  }

  /** A serialized event holds no raw control character, and so no line end. */
  lemma SerializedIsPrintable(e: Event)
    ensures IsPrintable(Serialize(e)) && '\n' !in Serialize(e) && '\r' !in Serialize(e)
  {
    hide Tail, Escape;
    EscapeIsPrintable(e.timestamp);
    EscapeIsPrintable(e.actor);
    EscapeIsPrintable(e.operation);
    TailIsPrintable(e);
  }

  /** The text of a day file: each record, then a newline. */
  function FileText(events: seq<Event>): string {
    if |events| == 0 then "" else Serialize(events[0]) + ['\n'] + FileText(events[1..])
  }

  function Serialized(events: seq<Event>): seq<string> {
    seq(|events|, i requires 0 <= i < |events| => Serialize(events[i]))
  }

  /** One record, one line: cut at its newlines, the text is the records again, and nothing after the last newline. */
  lemma OneRecordOneLine(events: seq<Event>)
    ensures Split(FileText(events), '\n') == Serialized(events) + [""]
  {
    hide Serialize, FileText, IsPrintable, Split, Join;
    FileTextJoins(events);
    forall part | part in Serialized(events) + [""] ensures '\n' !in part {
      if part != "" {
        var i :| 0 <= i < |events| && Serialized(events)[i] == part;
        SerializedIsPrintable(events[i]);
      }
    }
    SplitJoin(Serialized(events) + [""], '\n');
  }

  lemma {:induction false} FileTextJoins(events: seq<Event>)
    ensures FileText(events) == Join(Serialized(events) + [""], '\n')
  {
    hide Serialize;
    if |events| > 0 {
      FileTextJoins(events[1..]);
      var parts := Serialized(events) + [""];
      assert parts[1..] == Serialized(events[1..]) + [""];
    }
  }

  // ---- the prefilter ------------------------------------------------------------------

  /** What follows the first occurrence of `pattern` (`split_once`). */
  function AfterFirst(line: string, pattern: string): Option<string> {
    if pattern <= line then Some(line[|pattern|..])
    else if line == "" then None
    else AfterFirst(line[1..], pattern)
  }

  /** What precedes the first quote, if there is one. */
  function BeforeQuote(s: string): Option<string> {
    if s == "" then None
    else if s[0] == '"' then Some("")
    else
      match BeforeQuote(s[1..])
      case None => None
      case Some(rest) => Some([s[0]] + rest)
  }

  function LineOperation(line: string): Option<string> {
    match AfterFirst(line, MARK)
    case None => None
    case Some(rest) => BeforeQuote(rest)
  }

  // ---- it finds the operation and nothing else --------------------------------------------

  /** Every quote in escaped text follows a backslash. */
  lemma {:induction false} QuotesAreEscaped(s: string)
    ensures forall k :: 0 <= k < |Escape(s)| && Escape(s)[k] == '"' ==> k > 0 && Escape(s)[k - 1] == '\\'
  {
    if s != "" {
      QuotesAreEscaped(s[1..]);
      var head, rest := EscapeChar(s[0]), Escape(s[1..]);
      forall k | 0 <= k < |Escape(s)| && Escape(s)[k] == '"' ensures k > 0 && Escape(s)[k - 1] == '\\' {
        if k >= |head| {
          assert rest[k - |head|] == '"';
          assert Escape(s)[k - 1] == rest[k - |head| - 1];
        } else {
          assert head[k] == '"';
        }
      }
    }
  }

  /** No occurrence of the mark starts within the first `n` characters. */
  ghost predicate NoMarkBefore(line: string, n: nat)
    requires n <= |line|
  {
    forall i :: 0 <= i < n ==> !(MARK <= line[i..])
  }

  lemma {:induction false} SkipAhead(line: string, n: nat)
    requires n <= |line| && NoMarkBefore(line, n)
    ensures AfterFirst(line, MARK) == AfterFirst(line[n..], MARK)
    decreases n
  {
    if n > 0 {
      assert line[0..] == line;
      forall i | 0 <= i < n - 1 ensures !(MARK <= line[1..][i..]) {
        assert line[1..][i..] == line[i + 1..];
      }
      SkipAhead(line[1..], n - 1);
      assert line[1..][n - 1..] == line[n..];
    }
  }

  /** Where the mark has which characters. */
  lemma MarkShape()
    ensures |MARK| == 13 && MARK[0] == '"' && MARK[1] == 'o' && MARK[9] == 'n' && MARK[10] == '"' && MARK[11] == ':'
    ensures forall k :: 1 <= k <= 9 ==> MARK[k] != '"'
  {
    assert forall k :: 1 <= k <= 9 ==> MARK[k] == "operation"[k - 1];
  }

  lemma Mismatch(line: string, i: nat, k: nat)
    requires i + k < |line| && k < |MARK| && line[i + k] != MARK[k]
    ensures !(MARK <= line[i..])
  {
    assert line[i..][k] == line[i + k];
  }

  /** A quoted value, whatever it contains, holds no mark: the quote inside the mark cannot be its own. */
  lemma SkipValue(value: string, rest: string)
    ensures AfterFirst(['"'] + Escape(value) + "\"," + rest, MARK) == AfterFirst(rest, MARK)
  {
    var text := Escape(value);
    var line := ['"'] + text + "\"," + rest;
    QuotesAreEscaped(value);
    MarkShape();
    var close := |text| + 1;
    assert line[close] == '"' && line[close + 1] == ',';
    assert forall k :: 1 <= k < close ==> line[k] == text[k - 1];
    forall i | 0 <= i < close + 2 ensures !(MARK <= line[i..]) {
      if i > close {
        Mismatch(line, i, 0);
      } else if i == close {
        Mismatch(line, i, 1);
      } else if close - i < 10 {
        Mismatch(line, i, close - i);
      } else if close - i == 10 {
        Mismatch(line, i, 11);
      } else if line[i + 10] != '"' {
        Mismatch(line, i, 10);
      } else {
        assert line[i + 9] == text[i + 8] == '\\';
        Mismatch(line, i, 9);
      }
    }
    SkipAhead(line, close + 2);
    assert line[close + 2..] == rest;
  }

  /** A piece of syntax none of whose quotes is followed by an `o`. */
  predicate IsHarmless(piece: string) {
    forall i :: 0 <= i < |piece| && piece[i] == '"' ==> i + 1 < |piece| && piece[i + 1] != 'o'
  }

  lemma SkipSyntax(piece: string, rest: string)
    requires IsHarmless(piece)
    ensures AfterFirst(piece + rest, MARK) == AfterFirst(rest, MARK)
  {
    var line := piece + rest;
    MarkShape();
    forall i | 0 <= i < |piece| ensures !(MARK <= line[i..]) {
      assert line[i] == piece[i] && (i + 1 < |piece| ==> line[i + 1] == piece[i + 1]);
      assert |line[i..]| > 0 && line[i..][0] == line[i];
      assert |line[i..]| > 1 ==> line[i..][1] == line[i + 1];
    }
    SkipAhead(line, |piece|);
    assert line[|piece|..] == rest;
  }

  lemma AfterTheMark(rest: string)
    ensures AfterFirst(MARK + rest, MARK) == Some(rest)
  {
    assert MARK <= MARK + rest && (MARK + rest)[|MARK|..] == rest;
  }

  /** On a line the writer produced, the mark found is the operation's own. */
  lemma FindsTheOperation(e: Event)
    ensures AfterFirst(Serialize(e), MARK) == Some(Escape(e.operation) + Tail(e))
  {
    var rest := Escape(e.operation) + Tail(e);
    var fromActor := "\"actor\":" + (['"'] + Escape(e.actor) + "\"," + (MARK + rest));
    AfterTheMark(rest);
    hide AfterFirst, Escape, Tail;
    SkipValue(e.actor, MARK + rest);
    SkipSyntax("\"actor\":", ['"'] + Escape(e.actor) + "\"," + (MARK + rest));
    SkipValue(e.timestamp, fromActor);
    SkipSyntax("{\"timestamp\":", ['"'] + Escape(e.timestamp) + "\"," + fromActor);
  }

  // ---- and decides as the parsed event would ---------------------------------------------

  const API_OPERATIONS := ["api.field_read", "api.items_listed", "api.unlock", "api.authorization"]
  const CLI_READS := ["get", "show", "raw", "code", "inject", "run", "passkey", "passkey assert", "passkey inject"]
  const CLI_ACTIONS := ["attachment get", "attachment download", "unlock", "login", "lock", "purge"]
  const BROWSER_READS := [
    "browser.credential", "browser.totp", "browser.copy", "browser.passkey_get", "browser.passkey_create"]
  const BROWSER_ACTIONS := [
    "browser.attachment_download", "browser.unlock", "browser.lock", "browser.authorization"]
  const AGENT_OPERATIONS := [
    "ssh_agent.sign", "agent.timeout_lock", "agent.server_logout", "agent.key_rotation_lock", "agent.stop"]

  const NOTABLE: seq<string> :=
    API_OPERATIONS + CLI_READS + CLI_ACTIONS + BROWSER_READS + BROWSER_ACTIONS + AGENT_OPERATIONS

  predicate IsNotable(operation: string) {
    operation in NOTABLE
  }

  predicate IsPlain(s: string) {
    forall c :: c in s ==> IsPlainChar(c)
  }

  lemma ApiPlain()
    ensures forall s :: s in API_OPERATIONS ==> IsPlain(s)
  {
  }

  lemma CliReadsPlain()
    ensures forall s :: s in CLI_READS ==> IsPlain(s)
  {
  }

  lemma CliActionsPlain()
    ensures forall s :: s in CLI_ACTIONS ==> IsPlain(s)
  {
  }

  lemma BrowserReadsPlain()
    ensures forall s :: s in BROWSER_READS ==> IsPlain(s)
  {
  }

  lemma BrowserActionsPlain()
    ensures forall s :: s in BROWSER_ACTIONS ==> IsPlain(s)
  {
  }

  lemma AgentPlain()
    ensures forall s :: s in AGENT_OPERATIONS ==> IsPlain(s)
  {
  }

  lemma NotableIsPlain()
    ensures forall operation :: IsNotable(operation) ==> IsPlain(operation)
  {
    ApiPlain();
    CliReadsPlain();
    CliActionsPlain();
    BrowserReadsPlain();
    BrowserActionsPlain();
    AgentPlain();
  }

  /** Escaped text up to its first quote is the text itself, or shows a backslash. */
  lemma {:induction false} RawOperation(operation: string, tail: string)
    requires tail != "" && tail[0] == '"'
    ensures BeforeQuote(Escape(operation) + tail).Some?
    ensures IsPlain(operation) ==> BeforeQuote(Escape(operation) + tail) == Some(operation)
    ensures !IsPlain(operation) ==> '\\' in BeforeQuote(Escape(operation) + tail).value
  {
    var text := Escape(operation) + tail;
    if operation == "" {
      assert text == tail;
    } else if IsPlainChar(operation[0]) {
      RawOperation(operation[1..], tail);
      assert text[1..] == Escape(operation[1..]) + tail;
      assert operation == [operation[0]] + operation[1..];
    } else {
      assert operation[0] in operation;
      assert text[0] == '\\';
      assert text[|EscapeChar(operation[0])| + |Escape(operation[1..])|] == '"';
      QuoteExists(text, |EscapeChar(operation[0])| + |Escape(operation[1..])|);
      QuoteExists(text[1..], |EscapeChar(operation[0])| + |Escape(operation[1..])| - 1);
    }
  }

  lemma {:induction false} QuoteExists(s: string, k: nat)
    requires k < |s| && s[k] == '"'
    ensures BeforeQuote(s).Some?
  {
    if k > 0 && s[0] != '"' { QuoteExists(s[1..], k - 1); }
  }

  /** On a written line the prefilter agrees with the operation written, whatever the other fields contain. */
  lemma PrefilterAgrees(e: Event)
    ensures LineOperation(Serialize(e)).Some?
    ensures IsNotable(LineOperation(Serialize(e)).value) <==> IsNotable(e.operation)
  {
    FindsTheOperation(e);
    assert Tail(e)[0] == '"';
    RawOperation(e.operation, Tail(e));
    NotableIsPlain();
    var raw := LineOperation(Serialize(e)).value;
    if !IsPlain(e.operation) {
      assert !IsPlainChar('\\') && '\\' in raw;
      assert !IsPlain(raw);
    }
  }
}
