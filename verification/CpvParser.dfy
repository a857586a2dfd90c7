/** The parser for ksh93 compound variables, daemon/cpvparser1.c. The functions
    give the number of characters taken from the front of a text; the class
    moves a cursor and writes into buffers as the code does. */
module CpvParsers {
  import opened Lists

  predicate IsSpace(c: char) {
    c == ' ' || '\t' <= c <= '\r'
  }

  predicate IsAlpha(c: char) {
    'a' <= c <= 'z' || 'A' <= c <= 'Z'
  }

  predicate IsAlnum(c: char) {
    IsAlpha(c) || '0' <= c <= '9'
  }

  function Spaces(s: string): (n: nat)
    ensures n <= |s| && (n < |s| ==> !IsSpace(s[n])) && forall i :: 0 <= i < n ==> IsSpace(s[i])
  {
    if s != [] && IsSpace(s[0]) then 1 + Spaces(s[1..]) else 0
  }

  /** Up to the end of the line. */
  function Line(s: string): (n: nat)
    ensures n <= |s| && (n < |s| ==> s[n] == '\n') && forall i :: 0 <= i < n ==> s[i] != '\n'
  {
    if s != [] && s[0] != '\n' then 1 + Line(s[1..]) else 0
  }

  /** The end of the comment that comes first after white space. */
  function CommentEnd(s: string): (r: Option<nat>)
    ensures r.Some? ==> 0 < r.value <= |s|
  {
    var n := Spaces(s);
    if n < |s| && s[n] == '#' then Some(n + 1 + Line(s[n + 1..])) else None
  }

  /** White space and comments. */
  function Blank(s: string): (n: nat)
    ensures n <= |s|
    decreases |s|
  {
    match CommentEnd(s)
    case None => Spaces(s)
    case Some(m) => m + Blank(s[m..])
  }

  function Word(s: string): (n: nat)
    ensures n <= |s| && (n < |s| ==> !IsAlnum(s[n])) && forall i :: 0 <= i < n ==> IsAlnum(s[i])
  {
    if s != [] && IsAlnum(s[0]) then 1 + Word(s[1..]) else 0
  }

  /** The end of the option word that comes first after white space. */
  function OptionEnd(s: string): (r: Option<nat>)
    ensures r.Some? ==> 0 < r.value <= |s|
  {
    var n := Spaces(s);
    if n < |s| && s[n] == '-' then Some(n + 1 + Word(s[n + 1..])) else None
  }

  /** White space and option words, as in "-l -i2". */
  function Options(s: string): (n: nat)
    ensures n <= |s|
    decreases |s|
  {
    match OptionEnd(s)
    case None => Spaces(s)
    case Some(m) => m + Options(s[m..])
  }

  predicate IsKeyword(w: string) {
    w == "typeset" || w == "integer" || w == "float" || w == "compound"
  }

  /** The end of a type word with its options. */
  function TypeEnd(s: string): (r: Option<nat>)
    ensures r.Some? ==> 0 < r.value <= |s|
  {
    var w := Word(s);
    if 0 < w < |s| && IsSpace(s[w]) && IsKeyword(s[..w]) then Some(w + Options(s[w..])) else None
  }

  function Shift(k: nat, r: Option<(nat, nat)>): Option<(nat, nat)> {
    match r
    case None => None
    case Some(span) => Some((k + span.0, k + span.1))
  }

  /** Where the name of the variable starts and ends, after any type words. */
  function Name(s: string): (r: Option<(nat, nat)>)
    ensures r.Some? ==> r.value.0 < r.value.1 <= |s|
    decreases |s|
  {
    if s == [] || !IsAlpha(s[0]) then None
    else
      match TypeEnd(s)
      case None => Some((0, Word(s)))
      case Some(k) => Shift(k, Name(s[k..]))
  }

  datatype Mode = Plain | Single | Double

  function Prepend(c: char, n: nat, r: Option<(string, nat)>): Option<(string, nat)> {
    match r
    case None => None
    case Some(v) => Some(([c] + v.0, n + v.1))
  }

  function Skip(r: Option<(string, nat)>): Option<(string, nat)> {
    match r
    case None => None
    case Some(v) => Some((v.0, 1 + v.1))
  }

  /** The value and its length in the text, up to white space outside quotes. */
  function Value(s: string, mode: Mode): (r: Option<(string, nat)>)
    ensures r.Some? ==> |r.value.0| <= r.value.1 <= |s|
    decreases |s|
  {
    if s == [] then (if mode.Plain? then Some(("", 0)) else None)
    else if mode.Plain? && IsSpace(s[0]) then Some(("", 0))
    else if mode.Plain? && s[0] == '\"' then Skip(Value(s[1..], Double))
    else if mode.Plain? && s[0] == '\'' then Skip(Value(s[1..], Single))
    else if mode.Double? && s[0] == '\"' then Skip(Value(s[1..], Plain))
    else if mode.Single? && s[0] == '\'' then Skip(Value(s[1..], Plain))
    else if s[0] == '\\' && |s| > 1 then Prepend(s[1], 2, Value(s[2..], mode))
    else Prepend(s[0], 1, Value(s[1..], mode))
  }

  datatype Pair = Pair(name: string, value: string)
  datatype Parsed = Parsed(pair: Pair, used: nat)

  /** cpv_parse_name_val, on the rest of the text */
  function ParsePair(s: string): (r: Option<Parsed>)
    ensures r.Some? ==> 0 < r.value.used <= |s|
    ensures r.Some? ==> |r.value.pair.name| < r.value.used && |r.value.pair.value| < r.value.used
  {
    var b := Blank(s);
    var t := s[b..];
    if t == [] || t[0] == ')' then None
    else
      match Name(t)
      case None => None
      case Some(span) =>
        if span.1 == |t| || t[span.1] != '=' then None
        else
          match Value(t[span.1 + 1..], Plain)
          case None => None
          case Some(v) => Some(Parsed(Pair(t[span.0..span.1], v.0), b + span.1 + 1 + v.1))
  }

  /** cpv_read_cpv_header */
  function Header(s: string): (r: Option<nat>)
    ensures r.Some? ==> 0 < r.value <= |s|
  {
    var b := Blank(s);
    if b < |s| && s[b] == '(' then Some(b + 1) else None
  }

  /** Calling cpv_parse_name_val until it fails. */
  function ParseAll(s: string): seq<Pair>
    decreases |s|
  {
    match ParsePair(s)
    case None => []
    case Some(p) => [p.pair] + ParseAll(s[p.used..])
  }

  function ParseText(s: string): Option<seq<Pair>> {
    match Header(s)
    case None => None
    case Some(n) => Some(ParseAll(s[n..]))
  }

  // One step of each loop

  lemma {:induction false} BlankAt(s: string)
    ensures Blank(s) == match CommentEnd(s) case None => Spaces(s) case Some(m) => m + Blank(s[m..])
  {
    hide Spaces, CommentEnd;
  }

  lemma {:induction false} OptionsAt(s: string)
    ensures Options(s) == match OptionEnd(s) case None => Spaces(s) case Some(m) => m + Options(s[m..])
  {
    hide Spaces, OptionEnd;
  }

  lemma {:induction false} NameAt(s: string)
    requires s != "" && IsAlpha(s[0])
    ensures Name(s) == match TypeEnd(s) case None => Some((0, Word(s))) case Some(k) => Shift(k, Name(s[k..]))
  {
    hide Word, TypeEnd;
  }

  /** What has been read of the value, and what is left to read. */
  function Onward(read: string, used: nat, r: Option<(string, nat)>): Option<(string, nat)> {
    match r
    case None => None
    case Some(v) => Some((read + v.0, used + v.1))
  }

  lemma OnwardPrepend(read: string, used: nat, c: char, n: nat, r: Option<(string, nat)>)
    ensures Onward(read, used, Prepend(c, n, r)) == Onward(read + [c], used + n, r)
  {
    if r.Some? {
      assert read + ([c] + r.value.0) == read + [c] + r.value.0;
    }
  }

  lemma OnwardNothing(r: Option<(string, nat)>)
    ensures Onward("", 0, r) == r
  {
    if r.Some? {
      assert "" + r.value.0 == r.value.0;
    }
  }

  lemma OnwardSkip(read: string, used: nat, r: Option<(string, nat)>)
    ensures Onward(read, used, Skip(r)) == Onward(read, used + 1, r)
  {
  }

  /** What the value parser does with the character at the front. */
  datatype Turn = Finish | Switch(mode: Mode) | Take(c: char, n: nat)

  function TurnOf(s: string, mode: Mode): Turn
    requires s != ""
  {
    if mode.Plain? && IsSpace(s[0]) then Finish
    else if mode.Plain? && s[0] == '\"' then Switch(Double)
    else if mode.Plain? && s[0] == '\'' then Switch(Single)
    else if mode.Double? && s[0] == '\"' then Switch(Plain)
    else if mode.Single? && s[0] == '\'' then Switch(Plain)
    else if s[0] == '\\' && |s| > 1 then Take(s[1], 2)
    else Take(s[0], 1)
  }

  lemma {:induction false} ValueAt(s: string, mode: Mode)
    requires s != ""
    ensures match TurnOf(s, mode)
      case Finish => Value(s, mode) == Some(("", 0))
      case Switch(next) => Value(s, mode) == Skip(Value(s[1..], next))
      case Take(c, n) => n <= |s| && Value(s, mode) == Prepend(c, n, Value(s[n..], mode))
  {
  }

  // The parser object

  class Parser {
    const text: string
    const size: nat    // max_name_val_size
    var pos: nat       // curr_string

    ghost predicate Valid()
      reads this
    {
      pos <= |text| && size == |text| && '\0' !in text
    }

    /** cpv_create_parser */
    constructor (s: string)
      requires '\0' !in s
      ensures Valid() && text == s && pos == 0
    {
      text, size, pos := s, |s|, 0;
    }

    method SkipSpaces(from: nat) returns (i: nat)
      requires from <= |text|
      ensures i == from + Spaces(text[from..])
    {
      i := from;
      while i < |text| && IsSpace(text[i])
        invariant from <= i <= |text| && i + Spaces(text[i..]) == from + Spaces(text[from..])
      {
        assert text[i..][1..] == text[i + 1..];
        i := i + 1;
      }
    }

    method SkipLine(from: nat) returns (i: nat)
      requires from <= |text|
      ensures i == from + Line(text[from..])
    {
      i := from;
      while i < |text| && text[i] != '\n'
        invariant from <= i <= |text| && i + Line(text[i..]) == from + Line(text[from..])
      {
        assert text[i..][1..] == text[i + 1..];
        i := i + 1;
      }
    }

    /** The loop at `skipspaces` */
    method SkipBlank(from: nat) returns (i: nat)
      requires from <= |text|
      ensures i == from + Blank(text[from..])
    {
      hide Blank, Spaces, Line;
      i := from;
      while true
        invariant from <= i <= |text| && i + Blank(text[i..]) == from + Blank(text[from..])
        decreases |text| - i
      {
        BlankAt(text[i..]);
        var j := SkipSpaces(i);
        if j == |text| || text[j] != '#' {
          return j;
        }
        assert text[i..][j - i + 1..] == text[j + 1..];
        var k := SkipLine(j + 1);
        assert text[i..][k - i..] == text[k..];
        i := k;
      }
    }

    /** cpv_read_cpv_header: on failure the cursor stays where it is. */
    method ReadHeader() returns (ok: bool)
      requires Valid()
      modifies this`pos
      ensures Valid()
      ensures match Header(text[old(pos)..])
        case None => !ok && pos == old(pos)
        case Some(n) => ok && pos == old(pos) + n
    {
      hide Blank;
      var i := SkipBlank(pos);
      ok := i < |text| && text[i] == '(';
      if ok {
        pos := i + 1;
      }
    }

    /** A word goes into the buffer: each character written is one taken. */
    method ReadWord(from: nat, buffer: array<char>) returns (i: nat)
      requires from <= |text| && buffer.Length > |text|
      modifies buffer
      ensures i == from + Word(text[from..]) && buffer[..i - from] == text[from..i]
    {
      i := from;
      while i < |text| && IsAlnum(text[i])
        invariant from <= i <= |text| && i + Word(text[i..]) == from + Word(text[from..])
        invariant buffer[..i - from] == text[from..i]
      {
        assert text[i..][1..] == text[i + 1..];
        buffer[i - from] := text[i];
        i := i + 1;
      }
    }

    method SkipWord(from: nat) returns (i: nat)
      requires from <= |text|
      ensures i == from + Word(text[from..])
    {
      i := from;
      while i < |text| && IsAlnum(text[i])
        invariant from <= i <= |text| && i + Word(text[i..]) == from + Word(text[from..])
      {
        assert text[i..][1..] == text[i + 1..];
        i := i + 1;
      }
    }

    /** The loop at `skip_typeset_options` */
    method SkipOptions(from: nat) returns (i: nat)
      requires from <= |text|
      ensures i == from + Options(text[from..])
    {
      hide Options, Spaces, Word;
      i := from;
      while true
        invariant from <= i <= |text| && i + Options(text[i..]) == from + Options(text[from..])
        decreases |text| - i
      {
        OptionsAt(text[i..]);
        var j := SkipSpaces(i);
        if j == |text| || text[j] != '-' {
          return j;
        }
        assert text[i..][j - i + 1..] == text[j + 1..];
        var k := SkipWord(j + 1);
        assert text[i..][k - i..] == text[k..];
        i := k;
      }
    }

    /** The loop at `parse_varname`: the name is in the buffer. */
    method ReadName(from: nat, buffer: array<char>) returns (ok: bool, i: nat, j: nat)
      requires from <= |text| && buffer.Length > |text|
      modifies buffer
      ensures match Name(text[from..])
        case None => !ok
        case Some(span) => ok && i == from + span.0 && j == from + span.1 && buffer[..j - i] == text[i..j]
    {
      hide Name, Word, Options, IsKeyword;
      i, j := from, from;
      while true
        invariant from <= i <= |text| && Shift(i - from, Name(text[i..])) == Name(text[from..])
        decreases |text| - i
      {
        if i == |text| || !IsAlpha(text[i]) {
          NoName(text[i..]);
          return false, i, j;
        }
        NameAt(text[i..]);
        j := ReadWord(i, buffer);
        assert text[i..][..j - i] == text[i..j];
        var w := j - i;
        if j < |text| && IsSpace(text[j]) && IsKeyword(buffer[..j - i]) {
          assert text[i..][w..] == text[j..];
          WordNonempty(text[i..]);
          var k := SkipOptions(j);
          assert text[i..][k - i..] == text[k..];
          ShiftMore(i - from, k - i, Name(text[k..]));
          i := k;
        } else {
          return true, i, j;
        }
      }
    }

    /** The loop at `val_quotes`: at most one character is written for each one
        that is taken, so the buffer is large enough. */
    method ReadValue(from: nat, buffer: array<char>) returns (ok: bool, n: nat, i: nat)
      requires from <= |text| && buffer.Length > |text|
      modifies buffer
      ensures n <= buffer.Length
      ensures match Value(text[from..], Plain)
        case None => !ok
        case Some(v) => ok && buffer[..n] == v.0 && i == from + v.1
    {
      hide Value, TurnOf;
      var mode := Plain;
      i, n := from, 0;
      OnwardNothing(Value(text[from..], Plain));
      assert buffer[..0] == "";
      while i < |text|
        invariant from <= i <= |text| && n <= i - from
        invariant Onward(buffer[..n], i - from, Value(text[i..], mode)) == Value(text[from..], Plain)
        decreases |text| - i
      {
        var rest := text[i..];
        ValueAt(rest, mode);
        match TurnOf(rest, mode)
        case Finish =>
          FinishIsPlain(rest, mode);
          return true, n, i;
        case Switch(next) =>
          OnwardSkip(buffer[..n], i - from, Value(rest[1..], next));
          assert rest[1..] == text[i + 1..];
          mode := next;
          i := i + 1;
        case Take(c, k) =>
          TakeSome(rest, mode);
          OnwardPrepend(buffer[..n], i - from, c, k, Value(rest[k..], mode));
          assert rest[k..] == text[i + k..];
          ghost var read := buffer[..n];
          buffer[n] := c;
          assert buffer[..n + 1] == read + [c];
          n := n + 1;
          i := i + k;
      }
      assert text[i..] == "";
      NoMore(mode);
      ok := mode.Plain?;
    }

    /** cpv_parse_name_val: on failure the cursor stays where it is. */
    method ParseNameVal() returns (r: Option<Pair>)
      requires Valid()
      modifies this`pos
      ensures Valid()
      ensures match ParsePair(text[old(pos)..])
        case None => r == None && pos == old(pos)
        case Some(p) => r == Some(p.pair) && pos == old(pos) + p.used
    {
      hide Blank, Name, Value;
      var name := new char[size + 1];
      var value := new char[size + 1];
      var s := SkipBlank(pos);
      assert text[pos..][s - pos..] == text[s..];
      if s == |text| || text[s] == ')' {
        return None;
      }
      var ok, i, j := ReadName(s, name);
      if !ok || j == |text| || text[j] != '=' {
        return None;
      }
      assert text[s..][j - s + 1..] == text[j + 1..];
      assert text[s..][i - s..j - s] == text[i..j];
      var n, e;
      ok, n, e := ReadValue(j + 1, value);
      if !ok {
        return None;
      }
      r := Some(Pair(name[..j - i], value[..n]));
      pos := e;
    }
  }

  lemma NoName(s: string)
    requires s == "" || !IsAlpha(s[0])
    ensures Name(s) == None
  {
  }

  lemma WordNonempty(s: string)
    requires s != "" && IsAlpha(s[0])
    ensures Word(s) > 0
  {
  }

  lemma ShiftMore(a: nat, b: nat, r: Option<(nat, nat)>)
    ensures Shift(a, Shift(b, r)) == Shift(a + b, r)
  {
  }

  lemma FinishIsPlain(s: string, mode: Mode)
    requires s != "" && TurnOf(s, mode).Finish?
    ensures mode.Plain?
  {
  }

  lemma TakeSome(s: string, mode: Mode)
    requires s != "" && TurnOf(s, mode).Take?
    ensures 1 <= TurnOf(s, mode).n <= |s|
  {
  }

  lemma NoMore(mode: Mode)
    ensures Value("", mode) == if mode.Plain? then Some(("", 0)) else None
  {
  }
}
