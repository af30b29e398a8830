/** Cutting the first JSON object out of the text of a language model. The scan knows only
    braces, quotes and backslashes; the reference is the grammar of RFC 8259. */
module ToolCallScan {
  import opened Wrappers

  // ---------------------------------------------------------------- the scan

  datatype Scanner = Scanner(depth: int, inString: bool, escaped: bool)

  const START := Scanner(0, false, false)

  function Next(s: Scanner, c: char): Scanner {
    if s.inString then
      if s.escaped then s.(escaped := false)
      else if c == '\\' then s.(escaped := true)
      else if c == '"' then s.(inString := false)
      else s
    else if c == '"' then s.(inString := true)
    else if c == '{' then s.(depth := s.depth + 1)
    else if c == '}' then s.(depth := s.depth - 1)
    else s
  }

  /** A closing brace outside strings that brings the depth back to zero. */
  predicate Closes(s: Scanner, c: char) {
    !s.inString && c == '}' && s.depth == 1
  }

  /** The offset of the brace that closes what the scanner has opened. */
  function ClosingAt(s: Scanner, text: string): Option<nat>
    decreases |text|
  {
    if text == [] then None
    else if Closes(s, text[0]) then Some(0)
    else
      var rest := ClosingAt(Next(s, text[0]), text[1..]);
      if rest.None? then None else Some(rest.value + 1)
  }

  function FirstBrace(text: string): Option<nat> {
    if text == [] then None
    else if text[0] == '{' then Some(0)
    else
      var rest := FirstBrace(text[1..]);
      if rest.None? then None else Some(rest.value + 1)
  }

  /** The text that is handed to the JSON parser. */
  function Cut(text: string): Option<string> {
    var begin := FirstBrace(text);
    if begin.None? then None
    else
      BraceIsInside(text);
      var end := ClosingAt(START, text[begin.value..]);
      if end.None? then None
      else
        ClosingIsInside(START, text[begin.value..]);
        Some(text[begin.value..begin.value + end.value + 1])
  }

  lemma BraceIsInside(text: string)
    ensures FirstBrace(text).Some? ==> FirstBrace(text).value < |text| && text[FirstBrace(text).value] == '{'
  {
  }

  lemma ClosingIsInside(s: Scanner, text: string)
    ensures ClosingAt(s, text).Some? ==> ClosingAt(s, text).value < |text|
    decreases |text|
  {
  }

  method CutToolCall(text: string) returns (r: Option<string>)
    ensures r == Cut(text)
  {
    var begin := FirstBrace(text);
    if begin.None? {
      return None;
    }
    BraceIsInside(text);
    var depth, inString, escaped := 0, false, false;
    var i := begin.value;
    while i < |text|
      invariant begin.value <= i <= |text|
      invariant var all, rest := ClosingAt(START, text[begin.value..]), ClosingAt(Scanner(depth, inString, escaped), text[i..]);
                all == if rest.None? then None else Some(i - begin.value + rest.value)
    {
      var c := text[i];
      assert text[i..][0] == c && text[i..][1..] == text[i + 1..];
      if inString {
        if escaped {
          escaped := false;
        } else if c == '\\' {
          escaped := true;
        } else if c == '"' {
          inString := false;
        }
      } else if c == '"' {
        inString := true;
      } else if c == '{' {
        depth := depth + 1;
      } else if c == '}' {
        depth := depth - 1;
        if depth == 0 {
          return Some(text[begin.value..i + 1]);
        }
      }
      i := i + 1;
    }
    r := None;
  }

  // ---------------------------------------------------------------- JSON text

  /** A character of a string: itself, a two-character escape, or four hex digits. */
  datatype Part = Plain(c: char) | Escaped(c: char) | Unicode(hex: string)

  /** A value with the white space and the spelling it is printed with. */
  datatype Json =
    | Literal(word: string)
    | Number(digits: string)
    | Text(parts: seq<Part>)
    | Array(space: string, elements: Elements)
    | Object(space: string, members: Members)

  datatype Elements = NoElements | Element(before: string, value: Json, after: string, rest: Elements)

  datatype Members =
    | NoMembers
    | Member(s0: string, key: seq<Part>, s1: string, s2: string, value: Json, s3: string, rest: Members)

  predicate Space(s: string) {
    forall c <- s :: c in " \t\n\r"
  }

  predicate ValidPart(p: Part) {
    match p
    case Plain(c) => c != '"' && c != '\\' && c >= ' '
    case Escaped(c) => c in "\"\\/bfnrt"
    case Unicode(hex) => |hex| == 4 && forall c <- hex :: '0' <= c <= '9' || 'a' <= c <= 'f' || 'A' <= c <= 'F'
  }

  predicate ValidText(parts: seq<Part>) {
    forall p <- parts :: ValidPart(p)
  }

  /** Numbers are checked only for their characters, which admits all of the grammar's. */
  predicate Valid(j: Json) {
    match j
    case Literal(word) => word in {"true", "false", "null"}
    case Number(digits) => forall c <- digits :: c in "0123456789+-.eE"
    case Text(parts) => ValidText(parts)
    case Array(space, elements) => Space(space) && ValidElements(elements)
    case Object(space, members) => Space(space) && ValidMembers(members)
  }

  predicate ValidElements(e: Elements) {
    e.NoElements? || (Space(e.before) && Valid(e.value) && Space(e.after) && ValidElements(e.rest))
  }

  predicate ValidMembers(m: Members) {
    m.NoMembers?
    || (Space(m.s0) && ValidText(m.key) && Space(m.s1) && Space(m.s2) && Valid(m.value) && Space(m.s3) && ValidMembers(m.rest))
  }

  function PrintPart(p: Part): string {
    match p
    case Plain(c) => [c]
    case Escaped(c) => ['\\', c]
    case Unicode(hex) => "\\u" + hex
  }

  function PrintParts(parts: seq<Part>): string {
    if parts == [] then "" else PrintPart(parts[0]) + PrintParts(parts[1..])
  }

  function Quoted(parts: seq<Part>): string {
    "\"" + (PrintParts(parts) + "\"")
  }

  function Print(j: Json): string {
    match j
    case Literal(word) => word
    case Number(digits) => digits
    case Text(parts) => Quoted(parts)
    case Array(space, elements) => "[" + (space + (PrintElements(elements) + "]"))
    case Object(space, members) => "{" + (space + (PrintMembers(members) + "}"))
  }

  function PrintElements(e: Elements): string {
    if e.NoElements? then ""
    else e.before + (Print(e.value) + (e.after + if e.rest.NoElements? then "" else "," + PrintElements(e.rest)))
  }

  function PrintMembers(m: Members): string {
    if m.NoMembers? then ""
    else m.s0 + (Quoted(m.key) + (m.s1 + (":" + (m.s2 + (Print(m.value) + (m.s3 +
         if m.rest.NoMembers? then "" else "," + PrintMembers(m.rest)))))))
  }

  // ---------------------------------------------------------------- what the scan skips

  /** The scanner after `text`, or nothing if it closes within. */
  function Feed(s: Scanner, text: string): Option<Scanner>
    decreases |text|
  {
    if text == [] then Some(s)
    else if Closes(s, text[0]) then None
    else Feed(Next(s, text[0]), text[1..])
  }

  lemma {:induction false} FeedThen(s: Scanner, a: string, b: string)
    requires Feed(s, a).Some?
    ensures Feed(s, a + b) == Feed(Feed(s, a).value, b)
    ensures var rest := ClosingAt(Feed(s, a).value, b);
            ClosingAt(s, a + b) == if rest.None? then None else Some(|a| + rest.value)
    decreases |a|
  {
    if a == [] {
      assert a + b == b;
    } else {
      assert (a + b)[1..] == a[1..] + b;
      FeedThen(Next(s, a[0]), a[1..], b);
    }
  }

  /** `text` leaves a scanner that is inside an object, and outside strings, unchanged. */
  ghost predicate Skipped(text: string) {
    forall depth :: depth >= 1 ==> Feed(Scanner(depth, false, false), text) == Some(Scanner(depth, false, false))
  }

  lemma SkippedThen(a: string, b: string)
    requires Skipped(a) && Skipped(b)
    ensures Skipped(a + b)
  {
    forall depth | depth >= 1
      ensures Feed(Scanner(depth, false, false), a + b) == Some(Scanner(depth, false, false))
    {
      FeedThen(Scanner(depth, false, false), a, b);
    }
  }

  predicate Ordinary(text: string) {
    forall c <- text :: c != '"' && c != '{' && c != '}'
  }

  lemma {:induction false} OrdinaryIsSkipped(text: string)
    requires Ordinary(text)
    ensures Skipped(text)
    decreases |text|
  {
    if text != [] {
      assert text[0] in text && forall c <- text[1..] :: c in text;
      OrdinaryIsSkipped(text[1..]);
    }
  }

  lemma PartIsSkipped(s: Scanner, p: Part)
    requires ValidPart(p) && s.inString && !s.escaped
    ensures Feed(s, PrintPart(p)) == Some(s)
  {
    match p
    case Plain(c) =>
      assert [c][1..] == [];
    case Escaped(c) =>
      assert Feed(s.(escaped := true), [c]) == Some(s) by {
        assert [c][1..] == [];
      }
      assert ['\\', c][1..] == [c];
    case Unicode(hex) =>
      assert "\\u" + hex == ['\\', 'u'] + hex;
      assert ['\\', 'u'][1..] == ['u'] && ['u'][1..] == [];
      FeedThen(s, ['\\', 'u'], hex);
      HexIsSkipped(s, hex);
  }

  lemma {:induction false} HexIsSkipped(s: Scanner, hex: string)
    requires s.inString && !s.escaped && forall c <- hex :: c != '"' && c != '\\'
    ensures Feed(s, hex) == Some(s)
    decreases |hex|
  {
    if hex != [] {
      assert hex[0] in hex && forall c <- hex[1..] :: c in hex;
      HexIsSkipped(s, hex[1..]);
    }
  }

  lemma {:induction false} PartsAreSkipped(s: Scanner, parts: seq<Part>)
    requires ValidText(parts) && s.inString && !s.escaped
    ensures Feed(s, PrintParts(parts)) == Some(s)
    decreases |parts|
  {
    if parts != [] {
      PartIsSkipped(s, parts[0]);
      FeedThen(s, PrintPart(parts[0]), PrintParts(parts[1..]));
      PartsAreSkipped(s, parts[1..]);
    }
  }

  lemma QuotedIsSkipped(parts: seq<Part>)
    requires ValidText(parts)
    ensures Skipped(Quoted(parts))
  {
    forall depth | depth >= 1
      ensures Feed(Scanner(depth, false, false), Quoted(parts)) == Some(Scanner(depth, false, false))
    {
      var s := Scanner(depth, true, false);
      PartsAreSkipped(s, parts);
      FeedThen(s, PrintParts(parts), "\"");
      assert "\""[1..] == "";
      assert Feed(s, "\"") == Some(Scanner(depth, false, false));
      assert Quoted(parts)[1..] == PrintParts(parts) + "\"";
    }
  }

  lemma ClosesAt(depth: nat)
    requires depth >= 1
    ensures Feed(Scanner(depth + 1, false, false), "}") == Some(Scanner(depth, false, false))
  {
    assert "}"[1..] == "";
  }

  lemma BracedAt(inner: string, depth: nat)
    requires Skipped(inner) && depth >= 1
    ensures Feed(Scanner(depth, false, false), "{" + (inner + "}")) == Some(Scanner(depth, false, false))
  {
    FeedThen(Scanner(depth + 1, false, false), inner, "}");
    ClosesAt(depth);
    assert ("{" + (inner + "}"))[1..] == inner + "}";
  }

  lemma BracedIsSkipped(inner: string)
    requires Skipped(inner)
    ensures Skipped("{" + (inner + "}"))
  {
    forall depth | depth >= 1
      ensures Feed(Scanner(depth, false, false), "{" + (inner + "}")) == Some(Scanner(depth, false, false))
    {
      BracedAt(inner, depth);
    }
  }

  lemma WordIsSkipped(word: string)
    requires word in {"true", "false", "null"}
    ensures Skipped(word)
  {
    OrdinaryIsSkipped(word);
  }

  lemma NumberIsSkipped(digits: string)
    requires forall c <- digits :: c in "0123456789+-.eE"
    ensures Skipped(digits)
  {
    OrdinaryIsSkipped(digits);
  }

  lemma SpaceIsSkipped(s: string)
    requires Space(s)
    ensures Skipped(s)
  {
    OrdinaryIsSkipped(s);
  }

  lemma BracketedIsSkipped(space: string, inner: string)
    requires Skipped(space) && Skipped(inner)
    ensures Skipped("[" + (space + (inner + "]")))
  {
    OrdinaryIsSkipped("[");
    OrdinaryIsSkipped("]");
    SkippedThen(inner, "]");
    SkippedThen(space, inner + "]");
    SkippedThen("[", space + (inner + "]"));
  }

  lemma {:induction false} JsonIsSkipped(j: Json)
    requires Valid(j)
    ensures Skipped(Print(j))
    decreases j
  {
    match j
    case Literal(word) => WordIsSkipped(word);
    case Number(digits) => NumberIsSkipped(digits);
    case Text(parts) => QuotedIsSkipped(parts);
    case Array(space, elements) =>
      SpaceIsSkipped(space);
      ElementsAreSkipped(elements);
      BracketedIsSkipped(space, PrintElements(elements));
    case Object(space, members) =>
      SpaceIsSkipped(space);
      MembersAreSkipped(members);
      SkippedThen(space, PrintMembers(members));
      BracedIsSkipped(space + PrintMembers(members));
      assert space + (PrintMembers(members) + "}") == (space + PrintMembers(members)) + "}";
  }

  lemma {:induction false} ElementsAreSkipped(e: Elements)
    requires ValidElements(e)
    ensures Skipped(PrintElements(e))
    decreases e
  {
    OrdinaryIsSkipped("");
    if e.Element? {
      OrdinaryIsSkipped(",");
      SpaceIsSkipped(e.before);
      SpaceIsSkipped(e.after);
      JsonIsSkipped(e.value);
      ElementsAreSkipped(e.rest);
      SkippedThen(",", PrintElements(e.rest));
      var more := if e.rest.NoElements? then "" else "," + PrintElements(e.rest);
      SkippedThen(e.after, more);
      SkippedThen(Print(e.value), e.after + more);
      SkippedThen(e.before, Print(e.value) + (e.after + more));
    }
  }

  lemma {:induction false} MembersAreSkipped(m: Members)
    requires ValidMembers(m)
    ensures Skipped(PrintMembers(m))
    decreases m
  {
    OrdinaryIsSkipped("");
    if m.Member? {
      OrdinaryIsSkipped(",");
      OrdinaryIsSkipped(":");
      SpaceIsSkipped(m.s0);
      SpaceIsSkipped(m.s1);
      SpaceIsSkipped(m.s2);
      SpaceIsSkipped(m.s3);
      QuotedIsSkipped(m.key);
      JsonIsSkipped(m.value);
      MembersAreSkipped(m.rest);
      SkippedThen(",", PrintMembers(m.rest));
      var tail := if m.rest.NoMembers? then "" else "," + PrintMembers(m.rest);
      SkippedThen(m.s3, tail);
      tail := m.s3 + tail;
      SkippedThen(Print(m.value), tail);
      tail := Print(m.value) + tail;
      SkippedThen(m.s2, tail);
      tail := m.s2 + tail;
      SkippedThen(":", tail);
      tail := ":" + tail;
      SkippedThen(m.s1, tail);
      tail := m.s1 + tail;
      SkippedThen(Quoted(m.key), tail);
      tail := Quoted(m.key) + tail;
      SkippedThen(m.s0, tail);
    }
  }

  // ---------------------------------------------------------------- the main result

  lemma {:induction false} FirstBraceIs(prefix: string, rest: string)
    requires '{' !in prefix && rest != [] && rest[0] == '{'
    ensures FirstBrace(prefix + rest) == Some(|prefix|)
    decreases |prefix|
  {
    if prefix == [] {
      assert prefix + rest == rest;
    } else {
      assert (prefix + rest)[1..] == prefix[1..] + rest;
      FirstBraceIs(prefix[1..], rest);
    }
  }

  lemma ClosesAtEnd(inner: string, suffix: string)
    requires Skipped(inner)
    ensures ClosingAt(START, "{" + (inner + "}") + suffix) == Some(1 + |inner|)
  {
    var one := Scanner(1, false, false);
    var text := "{" + (inner + "}") + suffix;
    assert text[1..] == inner + ("}" + suffix);
    assert ("}" + suffix)[0] == '}';
    assert ClosingAt(one, "}" + suffix) == Some(0);
    FeedThen(one, inner, "}" + suffix);
    assert ClosingAt(one, text[1..]) == Some(|inner|);
  }

  /** Text before the first brace, then any JSON object, then anything: the scan cuts out
      exactly the object. */
  lemma CutsTheObject(prefix: string, object_: Json, suffix: string)
    requires '{' !in prefix && object_.Object? && Valid(object_)
    ensures Cut(prefix + Print(object_) + suffix) == Some(Print(object_))
  {
    var inner := object_.space + PrintMembers(object_.members);
    var printed := Print(object_);
    assert printed == "{" + (inner + "}");
    SpaceIsSkipped(object_.space);
    MembersAreSkipped(object_.members);
    SkippedThen(object_.space, PrintMembers(object_.members));
    ClosesAtEnd(inner, suffix);
    var text := prefix + printed + suffix;
    assert text == prefix + (printed + suffix);
    FirstBraceIs(prefix, printed + suffix);
    assert text[|prefix|..] == printed + suffix;
    assert text[|prefix|..|prefix| + |printed|] == printed;
  }
}
