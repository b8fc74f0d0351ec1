/** The argument list that the webhook concatenates by hand as JSON text, and what a JSON
    reader makes of it (RFC 8259, sections 2, 5 and 7). */
module ArgsText {
  import opened Wrappers

  /** strings.Join */
  function Join(items: seq<string>, separator: string): string {
    if items == [] then ""
    else if |items| == 1 then items[0]
    else items[0] + separator + Join(items[1..], separator)
  }

  const NEXT := "\",\""

  /** The text that patchContainerForPinning builds. */
  function WrappedArgs(command: seq<string>, args: seq<string>): string {
    "[ \"" + Join(command, NEXT) + "\" " + (if |args| > 0 then ",\"" + Join(args, NEXT) + "\"" else "") + "]"
  }

  // ---- Reading JSON ----

  predicate IsSpace(c: char) {
    c == ' ' || c == '\t' || c == '\n' || c == '\r'
  }

  function SkipSpace(t: string): (rest: string)
    ensures |rest| <= |t|
  {
    if t != "" && IsSpace(t[0]) then SkipSpace(t[1..]) else t
  }

  /** The value of a hexadecimal digit. */
  function HexDigit(c: char): (d: Option<nat>)
    ensures d.Some? ==> d.value < 16 && c != '"'
  {
    if '0' <= c <= '9' then Some(c as int - '0' as int)
    else if 'a' <= c <= 'f' then Some(c as int - 'a' as int + 10)
    else if 'A' <= c <= 'F' then Some(c as int - 'A' as int + 10)
    else None
  }

  /** The code unit of an escape \uXXXX at the start of the text. */
  function UnicodeEscape(t: string): (u: Option<nat>)
    ensures u.Some? ==> |t| >= 6 && u.value < 0x10000 && forall i | 0 <= i < 6 :: t[i] != '"'
  {
    if |t| < 6 || t[0] != '\\' || t[1] != 'u' then None else
      match (HexDigit(t[2]), HexDigit(t[3]), HexDigit(t[4]), HexDigit(t[5]))
      case (Some(a), Some(b), Some(c), Some(d)) => Some(a * 0x1000 + b * 0x100 + c * 0x10 + d)
      case _ => None
  }

  datatype Escape = Escape(c: char, length: nat)

  const REPLACEMENT := 0xFFFD as char

  /** The character that the escape at the start of the text stands for. A pair of
      surrogates stands for one character, a lone one for the replacement character. */
  function EscapeAt(t: string): (e: Option<Escape>)
    requires t != "" && t[0] == '\\'
    ensures e.Some? ==> 2 <= e.value.length <= |t|
    ensures e.Some? && e.value.c != '"' ==> forall i | 0 <= i < e.value.length :: t[i] != '"'
    ensures e.Some? && t[1] == '"' ==> e.value.c == '"'
  {
    if |t| < 2 then None
    else if t[1] == '"' then Some(Escape('"', 2))
    else if t[1] == '\\' then Some(Escape('\\', 2))
    else if t[1] == '/' then Some(Escape('/', 2))
    else if t[1] == 'b' then Some(Escape(8 as char, 2))
    else if t[1] == 'f' then Some(Escape(12 as char, 2))
    else if t[1] == 'n' then Some(Escape('\n', 2))
    else if t[1] == 'r' then Some(Escape('\r', 2))
    else if t[1] == 't' then Some(Escape('\t', 2))
    else
      match UnicodeEscape(t)
      case None => None
      case Some(u) =>
        if !(0xD800 <= u < 0xE000) then Some(Escape(u as char, 6))
        else
          match UnicodeEscape(t[6..])
          case None => Some(Escape(REPLACEMENT, 6))
          case Some(v) =>
            if u < 0xDC00 && 0xDC00 <= v < 0xE000
            then Some(Escape((0x10000 + (u - 0xD800) * 0x400 + (v - 0xDC00)) as char, 12))
            else Some(Escape(REPLACEMENT, 6))
  }

  datatype Read = Read(text: string, rest: string)

  /** Reads the characters of a string up to and including its closing quote. */
  function ReadString(t: string): (r: Option<Read>)
    ensures r.Some? ==> |r.value.rest| < |t|
    decreases |t|
  {
    if t == "" then None
    else if t[0] == '"' then Some(Read("", t[1..]))
    else if t[0] == '\\' then
      match EscapeAt(t)
      case None => None
      case Some(e) =>
        match ReadString(t[e.length..])
        case None => None
        case Some(r) => Some(Read([e.c] + r.text, r.rest))
    else if t[0] < ' ' then None
    else
      match ReadString(t[1..])
      case None => None
      case Some(r) => Some(Read([t[0]] + r.text, r.rest))
  }

  /** Reads the elements of an array of strings, from the first one to the end. */
  function ReadElements(t: string): Option<seq<string>>
    decreases |t|
  {
    if t == "" || t[0] != '"' then None else
      match ReadString(t[1..])
      case None => None
      case Some(r) =>
        match ReadTail(r.rest)
        case None => None
        case Some(others) => Some([r.text] + others)
  }

  /** Reads what follows an element of an array of strings. */
  function ReadTail(t: string): Option<seq<string>>
    decreases |t|
  {
    var rest := SkipSpace(t);
    if rest == "" then None
    else if rest[0] == ',' then ReadElements(SkipSpace(rest[1..]))
    else if rest[0] == ']' && SkipSpace(rest[1..]) == "" then Some([])
    else None
  }

  /** Reads an array of strings; None for any other text. */
  function ReadStrings(t: string): Option<seq<string>> {
    var start := SkipSpace(t);
    if start == "" || start[0] != '[' then None else
      var first := SkipSpace(start[1..]);
      if first != "" && first[0] == ']' && SkipSpace(first[1..]) == "" then Some([]) else ReadElements(first)
  }

  // ---- Exactly the clean strings survive ----

  /** The first n characters hold no quote, backslash or control character. */
  predicate CleanUntil(s: string, n: nat) {
    forall i | 0 <= i < n && i < |s| :: s[i] != '"' && s[i] != '\\' && s[i] >= ' '
  }

  predicate IsClean(s: string) {
    CleanUntil(s, |s|)
  }

  lemma {:induction false} CleanIsRead(s: string, post: string)
    requires IsClean(s)
    ensures ReadString(s + "\"" + post) == Some(Read(s, post))
  {
    var t := s + "\"" + post;
    if s == "" {
      assert t[1..] == post;
    } else {
      assert t[1..] == s[1..] + "\"" + post;
      CleanIsRead(s[1..], post);
      assert [s[0]] + s[1..] == s;
    }
  }

  /** How many characters reading the string takes from the text, the closing quote too. */
  function Length(t: string): (n: nat)
    requires ReadString(t).Some?
    ensures 1 <= n <= |t|
  {
    |t| - |ReadString(t).value.rest|
  }

  /** The text begins with an escape, and reading goes on behind it. */
  lemma EscapeTaken(t: string) returns (e: Escape, tail: string)
    requires ReadString(t).Some? && t[0] == '\\'
    ensures 2 <= e.length <= |t| && tail == t[e.length..] && (e.c != '"' ==> forall i | 0 <= i < e.length :: t[i] != '"')
    ensures ReadString(tail).Some? && Length(t) == e.length + Length(tail)
    ensures ReadString(t).value == Read([e.c] + ReadString(tail).value.text, ReadString(tail).value.rest)
  {
    e := EscapeAt(t).value;
    tail := t[e.length..];
  }

  /** It begins with a character that stands for itself. */
  lemma PlainTaken(t: string) returns (tail: string)
    requires ReadString(t).Some? && t[0] != '\\' && t[0] != '"'
    ensures tail == t[1..] && t[0] >= ' ' && ReadString(tail).Some? && Length(t) == 1 + Length(tail)
    ensures ReadString(t).value == Read([t[0]] + ReadString(tail).value.text, ReadString(tail).value.rest)
  {
    tail := t[1..];
  }

  /** Every character read takes one or more of the text; when none takes more than one, the
      text up to the closing quote is what was read, and clean. */
  lemma {:induction false} TakenFromText(t: string)
    requires ReadString(t).Some?
    ensures |ReadString(t).value.text| < Length(t)
    ensures |ReadString(t).value.text| == Length(t) - 1 ==>
      ReadString(t).value.text == t[..Length(t) - 1] && CleanUntil(t, Length(t) - 1)
    decreases |t|
  {
    if t[0] == '\\' {
      var e, tail := EscapeTaken(t);
      TakenFromText(tail);
    } else if t[0] != '"' {
      var tail := PlainTaken(t);
      TakenFromText(tail);
      PlainFront(t, tail, Length(tail) - 1);
    }
  }

  lemma PlainFront(t: string, tail: string, n: nat)
    requires t != "" && tail == t[1..] && n <= |tail| && t[0] != '\\' && t[0] != '"' && t[0] >= ' '
    ensures [t[0]] + tail[..n] == t[..n + 1]
    ensures CleanUntil(tail, n) ==> CleanUntil(t, n + 1)
  {
    forall i | 0 < i < n + 1 ensures t[i] == tail[i - 1] {
    }
  }

  /** A quote within the text that was taken has been escaped: it was read, and further to
      the front than it stands. */
  lemma {:induction false} QuoteRead(t: string, j: nat) returns (i: nat)
    requires ReadString(t).Some? && j < Length(t) - 1 && t[j] == '"'
    ensures i < j && i < |ReadString(t).value.text| && ReadString(t).value.text[i] == '"'
    decreases |t|
  {
    if t[0] == '\\' {
      var e, tail := EscapeTaken(t);
      i := 0;
      if j >= e.length {
        var k := QuoteRead(tail, j - e.length);
        i := k + 1;
      }
    } else {
      var tail := PlainTaken(t);
      var k := QuoteRead(tail, j - 1);
      i := k + 1;
    }
  }

  /** So when the text is what was read, followed by a quote, no quote was taken before. */
  lemma {:induction false} NoQuoteTaken(t: string, j: nat)
    requires ReadString(t).Some? && ReadString(t).value.text <= t && j < Length(t) - 1
    ensures t[j] != '"'
    decreases j
  {
    if t[j] == '"' {
      var i := QuoteRead(t, j);
      NoQuoteTaken(t, i);
    }
  }

  /** Then nothing was escaped. */
  lemma ReadIsClean(s: string, post: string)
    requires ReadString(s + "\"" + post).Some? && ReadString(s + "\"" + post).value.text == s
    ensures IsClean(s)
  {
    var t := s + "\"" + post;
    TakenFromText(t);
    assert t[|s|] == '"' && s <= t;
    if |s| < Length(t) - 1 {
      NoQuoteTaken(t, |s|);
    }
    assert forall i | 0 <= i < |s| :: s[i] == t[i];
  }

  /** A string between quotes is read back exactly when it is clean. */
  lemma ReadBack(s: string, post: string)
    ensures IsClean(s) ==> ReadString(s + "\"" + post) == Some(Read(s, post))
    ensures ReadString(s + "\"" + post).Some? && ReadString(s + "\"" + post).value.text == s ==> IsClean(s)
  {
    if IsClean(s) {
      CleanIsRead(s, post);
    } else if ReadString(s + "\"" + post).Some? && ReadString(s + "\"" + post).value.text == s {
      ReadIsClean(s, post);
    }
  }

  // ---- The whole list ----

  /** The text after the opening quote of an element that is not the last of its list. */
  function Rendered(items: seq<string>, tail: string): string
    requires items != []
  {
    if |items| == 1 then items[0] + "\"" + tail else items[0] + "\"" + ",\"" + Rendered(items[1..], tail)
  }

  lemma {:induction false} JoinRendered(items: seq<string>, tail: string)
    requires items != []
    ensures Join(items, NEXT) + "\"" + tail == Rendered(items, tail)
  {
    if |items| > 1 {
      JoinRendered(items[1..], tail);
      assert items[0] + NEXT + Join(items[1..], NEXT) + "\"" + tail
          == items[0] + "\"" + ",\"" + (Join(items[1..], NEXT) + "\"" + tail);
    }
  }

  predicate AllClean(items: seq<string>) {
    forall i | 0 <= i < |items| :: IsClean(items[i])
  }

  /** One element, followed by the rest of the list. */
  lemma ElementExactly(s: string, post: string, others: seq<string>)
    ensures ReadElements("\"" + s + "\"" + post) == Some([s] + others)
       <==> IsClean(s) && ReadTail(post) == Some(others)
  {
    var t := "\"" + s + "\"" + post;
    assert t[1..] == s + "\"" + post;
    ReadBack(s, post);
    assert ([s] + others)[0] == s && ([s] + others)[1..] == others;
    if ReadElements(t) == Some([s] + others) {
      var read := ReadString(t[1..]).value;
      assert ReadElements(t).value[0] == read.text;
      assert ([read.text] + ReadTail(post).value)[1..] == ReadTail(post).value;
    }
  }

  lemma CommaTail(t: string)
    requires t != "" && t[0] == '"'
    ensures ReadTail("," + t) == ReadElements(t)
    ensures ReadTail(" ," + t) == ReadElements(t)
  {
    assert (" ," + t)[1..] == "," + t && ("," + t)[1..] == t;
    assert SkipSpace("," + t) == "," + t;
  }

  lemma {:induction false} ListExactly(items: seq<string>, tail: string, others: seq<string>)
    requires items != []
    ensures ReadElements("\"" + Rendered(items, tail)) == Some(items + others)
       <==> AllClean(items) && ReadTail(tail) == Some(others)
  {
    var t := "\"" + Rendered(items, tail);
    if |items| == 1 {
      assert t == "\"" + items[0] + "\"" + tail;
      assert items + others == [items[0]] + others;
      ElementExactly(items[0], tail, others);
    } else {
      var next := "\"" + Rendered(items[1..], tail);
      assert t == "\"" + items[0] + "\"" + ("," + next);
      assert items + others == [items[0]] + (items[1..] + others);
      ElementExactly(items[0], "," + next, items[1..] + others);
      CommaTail(next);
      ListExactly(items[1..], tail, others);
      CleanSplit(items);
    }
  }

  lemma CleanSplit(items: seq<string>)
    requires items != []
    ensures AllClean(items) <==> IsClean(items[0]) && AllClean(items[1..])
  {
    assert forall i | 0 < i < |items| :: items[i] == items[1..][i - 1];
  }

  lemma EndTails()
    ensures ReadTail("]") == ReadTail(" ]") == Some([])
  {
    assert "]"[1..] == "" && " ]"[1..] == "]";
    assert SkipSpace("]") == "]" && SkipSpace(" ]") == "]";
  }

  /** What follows the last string of the command. */
  function AfterCommand(args: seq<string>): string {
    if args == [] then " ]" else " ,\"" + Rendered(args, "]")
  }

  lemma ArgsExactly(args: seq<string>)
    ensures ReadTail(AfterCommand(args)) == Some(args) <==> AllClean(args)
  {
    EndTails();
    if args != [] {
      var t := "\"" + Rendered(args, "]");
      assert AfterCommand(args) == " ," + t;
      CommaTail(t);
      ListExactly(args, "]", []);
      assert args + [] == args;
    }
  }

  lemma WrappedRendered(command: seq<string>, args: seq<string>)
    requires command != []
    ensures WrappedArgs(command, args) == "[ " + ("\"" + Rendered(command, AfterCommand(args)))
  {
    JoinRendered(command, AfterCommand(args));
    if args == [] {
      assert WrappedArgs(command, args) == "[ \"" + (Join(command, NEXT) + "\"" + " ]");
    } else {
      JoinRendered(args, "]");
      assert WrappedArgs(command, args) == "[ \"" + (Join(command, NEXT) + "\"" + (" ,\"" + (Join(args, NEXT) + "\"" + "]")));
    }
  }

  lemma OpenBracket(t: string)
    requires t != "" && t[0] == '"'
    ensures ReadStrings("[ " + t) == ReadElements(t)
  {
    var s := "[ " + t;
    assert s[1..] == " " + t && (" " + t)[1..] == t;
    assert SkipSpace(s) == s && SkipSpace(t) == t && SkipSpace(" " + t) == t;
  }

  /** The text reads back as the command followed by its arguments exactly when no string
      holds a quote, a backslash or a control character. */
  lemma ReadsBackExactly(command: seq<string>, args: seq<string>)
    requires command != []
    ensures ReadStrings(WrappedArgs(command, args)) == Some(command + args) <==> AllClean(command) && AllClean(args)
  {
    WrappedRendered(command, args);
    OpenBracket("\"" + Rendered(command, AfterCommand(args)));
    ListExactly(command, AfterCommand(args), args);
    ArgsExactly(args);
  }
}
