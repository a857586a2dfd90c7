/** The parser of compound variables inverts a printer exactly if white space
    follows every value, whatever the rest of the layout: white space, comments,
    type words with options, and how the value is cut into pieces that are bare
    or in single or double quotes, with any of their characters escaped. */
module CpvPrinters {
  import opened Lists
  import opened CpvParsers

  datatype Filler = Space(c: char) | Comment(text: string)
  datatype Flags = Flags(letters: string, after: string)
  datatype TypeWord = TypeWord(keyword: string, after: string, flags: seq<Flags>)

  /** A stretch of a value with the way it is quoted; `mask` says which
      characters are escaped beyond those that must be. */
  datatype Style = Bare | SingleQuotes | DoubleQuotes
  datatype Piece = Piece(style: Style, text: string, mask: seq<bool>)

  /** One member with its layout. */
  datatype Item = Item(before: seq<Filler>, types: seq<TypeWord>, name: string, pieces: seq<Piece>)

  /** What the pieces say, whatever their quotes. */
  function Text(ps: seq<Piece>): string {
    if ps == [] then "" else ps[0].text + Text(ps[1..])
  }

  function PairOf(item: Item): Pair {
    Pair(item.name, Text(item.pieces))
  }

  predicate PiecesOk(ps: seq<Piece>) {
    forall i :: 0 <= i < |ps| ==> |ps[i].mask| == |ps[i].text|
  }

  predicate AllSpace(s: string) {
    forall i :: 0 <= i < |s| ==> IsSpace(s[i])
  }

  predicate AllAlnum(s: string) {
    forall i :: 0 <= i < |s| ==> IsAlnum(s[i])
  }

  predicate FillersOk(fs: seq<Filler>) {
    forall i :: 0 <= i < |fs| ==> FillerOk(fs[i])
  }

  predicate FlagOk(f: Flags) {
    AllAlnum(f.letters) && AllSpace(f.after) && f.after != ""
  }

  predicate FlagsOk(fs: seq<Flags>) {
    forall i :: 0 <= i < |fs| ==> FlagOk(fs[i])
  }

  predicate TypeOk(t: TypeWord) {
    IsKeyword(t.keyword) && AllSpace(t.after) && t.after != "" && FlagsOk(t.flags)
  }

  predicate TypesOk(ts: seq<TypeWord>) {
    forall i :: 0 <= i < |ts| ==> TypeOk(ts[i])
  }

  predicate NameOk(name: string) {
    name != "" && IsAlpha(name[0]) && AllAlnum(name)
  }

  predicate ItemOk(item: Item) {
    FillersOk(item.before) && TypesOk(item.types) && NameOk(item.name) && PiecesOk(item.pieces)
  }

  function FillOne(f: Filler): string {
    match f
    case Space(c) => [c]
    case Comment(text) => "#" + text + "\n"
  }

  function Fill(fs: seq<Filler>): string {
    if fs == [] then "" else FillOne(fs[0]) + Fill(fs[1..])
  }

  function PrintFlags(fs: seq<Flags>): string {
    if fs == [] then "" else "-" + fs[0].letters + fs[0].after + PrintFlags(fs[1..])
  }

  function PrintTypes(ts: seq<TypeWord>): string {
    if ts == [] then "" else ts[0].keyword + ts[0].after + PrintFlags(ts[0].flags) + PrintTypes(ts[1..])
  }

  predicate MustEscape(c: char, style: Style) {
    c == '\\' || match style
      case Bare => IsSpace(c) || c == '\'' || c == '\"'
      case SingleQuotes => c == '\''
      case DoubleQuotes => c == '\"'
  }

  function Escaped(c: char, escape: bool): string {
    if escape then ['\\', c] else [c]
  }

  function Quoted(text: string, mask: seq<bool>, style: Style): string
    requires |mask| == |text|
  {
    if text == "" then "" else Escaped(text[0], MustEscape(text[0], style) || mask[0]) + Quoted(text[1..], mask[1..], style)
  }

  /** The quotes around a piece. */
  function Quote(style: Style): string {
    match style case Bare => "" case SingleQuotes => "'" case DoubleQuotes => "\""
  }

  function PrintPiece(p: Piece): string
    requires |p.mask| == |p.text|
  {
    Quote(p.style) + (Quoted(p.text, p.mask, p.style) + Quote(p.style))
  }

  function PrintPieces(ps: seq<Piece>): string
    requires PiecesOk(ps)
  {
    if ps == [] then "" else PrintPiece(ps[0]) + PrintPieces(ps[1..])
  }

  function Print(item: Item): string
    requires ItemOk(item)
  {
    Fill(item.before) + PrintTypes(item.types) + item.name + "=" + PrintPieces(item.pieces)
  }

  /** The value ends where white space or the text's end follows its quote. */
  predicate Separates(s: string) {
    s == "" || IsSpace(s[0])
  }

  // Strings

  lemma Assoc(a: string, b: string, c: string)
    ensures a + b + c == a + (b + c)
  {
  }

  lemma Cut(a: string, b: string)
    ensures (a + b)[..|a|] == a && (a + b)[|a|..] == b
  {
  }

  // White space and comments

  lemma {:induction false} SpacesMore(c: char, s: string)
    requires IsSpace(c)
    ensures Spaces([c] + s) == 1 + Spaces(s)
  {
    assert ([c] + s)[1..] == s;
  }

  lemma {:induction false} BlankSpace(c: char, s: string)
    requires IsSpace(c)
    ensures Blank([c] + s) == 1 + Blank(s)
  {
    hide Blank, Spaces, Line;
    var n, t := Spaces(s), [c] + s;
    SpacesMore(c, s);
    BlankAt(s);
    BlankAt(t);
    if n < |s| && s[n] == '#' {
      assert t[n + 1] == s[n];
      assert t[n + 2..] == s[n + 1..];
      var m := n + 1 + Line(s[n + 1..]);
      assert t[m + 1..] == s[m..];
    }
  }

  lemma {:induction false} LineOf(text: string, s: string)
    requires '\n' !in text
    ensures Line(text + "\n" + s) == |text|
  {
    if text != "" {
      assert (text + "\n" + s)[1..] == text[1..] + "\n" + s;
      LineOf(text[1..], s);
    }
  }

  lemma {:induction false} BlankComment(text: string, s: string)
    requires '\n' !in text
    ensures Blank("#" + text + "\n" + s) == 2 + |text| + Blank(s)
  {
    var all := "#" + text + "\n" + s;
    assert Spaces(all) == 0;
    BlankAt(all);
    hide Blank, Spaces, Line;
    assert all[1..] == text + "\n" + s;
    LineOf(text, s);
    assert all[1 + |text|..] == "\n" + s;
    BlankSpace('\n', s);
  }

  predicate FillerOk(f: Filler) {
    match f case Space(c) => IsSpace(c) case Comment(text) => '\n' !in text
  }

  lemma {:induction false} BlankFiller(f: Filler, s: string)
    requires FillerOk(f)
    ensures Blank(FillOne(f) + s) == |FillOne(f)| + Blank(s)
  {
    hide Blank;
    match f {
      case Space(c) => BlankSpace(c, s);
      case Comment(text) => BlankComment(text, s);
    }
  }

  lemma {:induction false} BlankFill(fs: seq<Filler>, s: string)
    requires FillersOk(fs)
    ensures Blank(Fill(fs) + s) == |Fill(fs)| + Blank(s)
  {
    if fs == [] {
      assert Fill(fs) + s == s;
    } else {
      assert FillersOk(fs[1..]);
      assert Fill(fs) + s == FillOne(fs[0]) + (Fill(fs[1..]) + s);
      hide Blank, Fill, FillOne;
      BlankFill(fs[1..], s);
      BlankFiller(fs[0], Fill(fs[1..]) + s);
      assert |Fill(fs)| == |FillOne(fs[0])| + |Fill(fs[1..])| by { FillLength(fs); }
    }
  }

  lemma FillLength(fs: seq<Filler>)
    requires fs != []
    ensures |Fill(fs)| == |FillOne(fs[0])| + |Fill(fs[1..])|
  {
  }

  // Names

  lemma {:induction false} SpacesOf(a: string, s: string)
    requires AllSpace(a) && (s == "" || !IsSpace(s[0]))
    ensures Spaces(a + s) == |a|
  {
    if a == "" {
      assert a + s == s;
    } else {
      assert (a + s)[1..] == a[1..] + s;
      SpacesOf(a[1..], s);
    }
  }

  lemma {:induction false} WordOf(a: string, s: string)
    requires AllAlnum(a) && (s == "" || !IsAlnum(s[0]))
    ensures Word(a + s) == |a|
  {
    if a == "" {
      assert a + s == s;
    } else {
      assert (a + s)[1..] == a[1..] + s;
      WordOf(a[1..], s);
    }
  }

  /** One option word is skipped. */
  lemma {:induction false} OptionSkipped(a: string, f: Flags, s: string)
    requires AllSpace(a) && FlagOk(f)
    ensures Options(a + ("-" + f.letters + (f.after + s))) == |a| + 1 + |f.letters| + Options(f.after + s)
  {
    hide Options, Word, Spaces;
    var rest := f.after + s;
    var all := a + ("-" + f.letters + rest);
    SpacesOf(a, "-" + f.letters + rest);
    assert rest[0] == f.after[0];
    WordOf(f.letters, rest);
    OptionsAt(all);
    assert all[|a| + 1..] == f.letters + rest;
    assert all[|a| + 1 + |f.letters|..] == rest;
  }

  lemma PrintFlagsFirst(a: string, fs: seq<Flags>, s: string)
    requires fs != []
    ensures a + PrintFlags(fs) + s == a + ("-" + fs[0].letters + (fs[0].after + (PrintFlags(fs[1..]) + s)))
    ensures |PrintFlags(fs)| == 1 + |fs[0].letters| + |fs[0].after| + |PrintFlags(fs[1..])|
  {
    var head, after, rest := "-" + fs[0].letters, fs[0].after, PrintFlags(fs[1..]);
    assert PrintFlags(fs) == head + after + rest;
    hide PrintFlags;
    Assoc(a, head + after + rest, s);
    Assoc(head + after, rest, s);
    Assoc(head, after, rest + s);
  }

  /** Option words are skipped up to the name. */
  lemma {:induction false} OptionsOf(a: string, fs: seq<Flags>, s: string)
    requires AllSpace(a) && FlagsOk(fs) && s != "" && IsAlpha(s[0])
    ensures Options(a + PrintFlags(fs) + s) == |a| + |PrintFlags(fs)|
    decreases |fs|
  {
    if fs == [] {
      hide Options, Spaces;
      assert a + PrintFlags(fs) + s == a + s;
      SpacesOf(a, s);
      OptionsAt(a + s);
    } else {
      hide Options, PrintFlags;
      var f, more := fs[0], PrintFlags(fs[1..]) + s;
      PrintFlagsFirst(a, fs, s);
      OptionSkipped(a, f, more);
      assert f.after + more == f.after + PrintFlags(fs[1..]) + s;
      OptionsOf(f.after, fs[1..], s);
    }
  }

  /** Type words are skipped up to the name. */
  lemma {:induction false} TypesSkipped(ts: seq<TypeWord>, s: string)
    requires TypesOk(ts) && s != "" && IsAlpha(s[0])
    ensures Name(PrintTypes(ts) + s) == Shift(|PrintTypes(ts)|, Name(s))
    decreases |ts|
  {
    hide Name, PrintTypes, PrintFlags, TypeOk;
    if ts == [] {
      NoTypes(ts, s);
    } else {
      assert TypesOk(ts[1..]);
      TypesSkipped(ts[1..], s);
      PrintTypesFirst(ts, s);
      TypesStart(ts[1..], s);
      KeywordSkipped(ts[0], PrintTypes(ts[1..]) + s);
      ShiftMore(|ts[0].keyword| + |ts[0].after| + |PrintFlags(ts[0].flags)|, |PrintTypes(ts[1..])|, Name(s));
    }
  }

  lemma NoTypes(ts: seq<TypeWord>, s: string)
    requires ts == []
    ensures Name(PrintTypes(ts) + s) == Shift(|PrintTypes(ts)|, Name(s))
  {
    hide Name;
    assert PrintTypes(ts) + s == s;
  }

  lemma {:induction false} NamePlain(name: string, s: string)
    requires NameOk(name) && s != "" && s[0] == '='
    ensures Name(name + s) == Some((0, |name|))
  {
    hide Word;
    WordOf(name, s);
    assert (name + s)[|name|] == '=';
  }

  lemma {:induction false} PrintTypesFirst(ts: seq<TypeWord>, s: string)
    requires ts != []
    ensures PrintTypes(ts) + s == ts[0].keyword + ts[0].after + PrintFlags(ts[0].flags) + (PrintTypes(ts[1..]) + s)
    ensures |PrintTypes(ts)| == |ts[0].keyword| + |ts[0].after| + |PrintFlags(ts[0].flags)| + |PrintTypes(ts[1..])|
  {
    var first, rest := ts[0].keyword + ts[0].after + PrintFlags(ts[0].flags), PrintTypes(ts[1..]);
    assert PrintTypes(ts) == first + rest;
    hide PrintTypes, PrintFlags;
    Assoc(first, rest, s);
  }

  lemma TypesStart(ts: seq<TypeWord>, s: string)
    requires TypesOk(ts) && s != "" && IsAlpha(s[0])
    ensures PrintTypes(ts) + s != "" && IsAlpha((PrintTypes(ts) + s)[0])
  {
    if ts == [] {
      assert PrintTypes(ts) + s == s;
    } else {
      KeywordStarts(ts[0]);
      PrintTypesFirst(ts, s);
      assert (PrintTypes(ts) + s)[0] == ts[0].keyword[0];
    }
  }

  lemma KeywordStarts(t: TypeWord)
    requires IsKeyword(t.keyword)
    ensures NameOk(t.keyword)
  {
  }

  /** The words that are taken for types. */
  lemma KeywordIff(w: string)
    ensures IsKeyword(w) <==> w in {"typeset", "integer", "float", "compound"}
  {
  }

  lemma {:induction false} KeywordSkipped(t: TypeWord, s: string)
    requires TypeOk(t) && s != "" && IsAlpha(s[0])
    ensures Name(t.keyword + t.after + PrintFlags(t.flags) + s) == Shift(|t.keyword| + |t.after| + |PrintFlags(t.flags)|, Name(s))
  {
    hide Options, PrintFlags, Word, Name;
    var flags := PrintFlags(t.flags);
    var rest := t.after + flags + s;
    var all := t.keyword + t.after + flags + s;
    assert all == t.keyword + rest by {
      Assoc(t.keyword, t.after, flags);
      Assoc(t.keyword, t.after + flags, s);
    }
    KeywordStarts(t);
    WordOf(t.keyword, rest);
    Cut(t.keyword, rest);
    OptionsOf(t.after, t.flags, s);
    NameAt(all);
    Cut(t.keyword + t.after + flags, s);
  }

  // Values

  function ModeOf(style: Style): Mode {
    match style case Bare => Plain case SingleQuotes => Single case DoubleQuotes => Double
  }

  lemma {:induction false} QuotedOne(c: char, escape: bool, style: Style, s: string)
    requires MustEscape(c, style) ==> escape
    ensures Value(Escaped(c, escape) + s, ModeOf(style)) == Prepend(c, |Escaped(c, escape)|, Value(s, ModeOf(style)))
  {
    var all := Escaped(c, escape) + s;
    Cut(Escaped(c, escape), s);
    ValueAt(all, ModeOf(style));
    hide Value;
    if escape {
      assert all[0] == '\\' && all[1] == c;
    } else {
      assert all[0] == c;
    }
  }

  /** The parser takes back the escapes. */
  lemma {:induction false} QuotedRead(text: string, mask: seq<bool>, style: Style, s: string)
    requires |mask| == |text|
    ensures Value(Quoted(text, mask, style) + s, ModeOf(style)) == Onward(text, |Quoted(text, mask, style)|, Value(s, ModeOf(style)))
    decreases |text|
  {
    if text == "" {
      assert Quoted(text, mask, style) + s == s;
      OnwardNothing(Value(s, ModeOf(style)));
    } else {
      hide Value, Quoted, Escaped, ModeOf;
      var escape := MustEscape(text[0], style) || mask[0];
      var rest, one := Quoted(text[1..], mask[1..], style), Escaped(text[0], escape);
      QuotedRead(text[1..], mask[1..], style, s);
      QuotedOne(text[0], escape, style, rest + s);
      QuotedFirst(text, mask, style);
      Assoc(one, rest, s);
      assert [text[0]] + text[1..] == text;
      OnwardMore([text[0]], |one|, text[1..], |rest|, Value(s, ModeOf(style)));
    }
  }

  lemma QuotedFirst(text: string, mask: seq<bool>, style: Style)
    requires |mask| == |text| && text != ""
    ensures Quoted(text, mask, style) == Escaped(text[0], MustEscape(text[0], style) || mask[0]) + Quoted(text[1..], mask[1..], style)
  {
  }

  lemma OnwardMore(a: string, m: nat, b: string, n: nat, r: Option<(string, nat)>)
    ensures Onward(a, m, Onward(b, n, r)) == Onward(a + b, m + n, r)
    ensures |a| == 1 ==> Prepend(a[0], m, Onward(b, n, r)) == Onward(a + b, m + n, r)
  {
    if r.Some? {
      assert a + (b + r.value.0) == a + b + r.value.0;
      assert |a| == 1 ==> [a[0]] == a;
    }
  }

  /** A quote opens and closes its mode. */
  lemma QuotesRead(style: Style, s: string)
    requires !style.Bare?
    ensures Value(Quote(style) + s, Plain) == Skip(Value(s, ModeOf(style)))
    ensures Value(Quote(style) + s, ModeOf(style)) == Skip(Value(s, Plain))
  {
    assert (Quote(style) + s)[1..] == s;
    ValueAt(Quote(style) + s, Plain);
    ValueAt(Quote(style) + s, ModeOf(style));
  }

  /** A piece adds its text to the value, and the parser goes on after it. */
  lemma {:induction false} PieceRead(p: Piece, s: string)
    requires |p.mask| == |p.text|
    ensures Value(PrintPiece(p) + s, Plain) == Onward(p.text, |PrintPiece(p)|, Value(s, Plain))
  {
    hide Value, Quoted;
    var q, quoted := Quote(p.style), Quoted(p.text, p.mask, p.style);
    QuotedRead(p.text, p.mask, p.style, q + s);
    Assoc(quoted, q, s);
    Assoc(q, quoted + q, s);
    if p.style.Bare? {
      assert q + s == s && quoted + q == quoted && q + (quoted + q) == quoted;
    } else {
      QuotesRead(p.style, quoted + (q + s));
      QuotesRead(p.style, s);
    }
  }

  /** Whatever the quotes of its pieces, a value is read back, and what sticks to
      it is read as more of it. */
  lemma {:induction false} PiecesRead(ps: seq<Piece>, s: string)
    requires PiecesOk(ps)
    ensures Value(PrintPieces(ps) + s, Plain) == Onward(Text(ps), |PrintPieces(ps)|, Value(s, Plain))
    decreases |ps|
  {
    hide Value, PrintPiece;
    if ps == [] {
      assert PrintPieces(ps) + s == s;
      OnwardNothing(Value(s, Plain));
    } else {
      PiecesRead(ps[1..], s);
      PieceRead(ps[0], PrintPieces(ps[1..]) + s);
      Assoc(PrintPiece(ps[0]), PrintPieces(ps[1..]), s);
      OnwardMore(ps[0].text, |PrintPiece(ps[0])|, Text(ps[1..]), |PrintPieces(ps[1..])|, Value(s, Plain));
    }
  }

  /** A quote that is not closed is an error. */
  lemma UnclosedQuote(text: string, mask: seq<bool>, style: Style)
    requires |mask| == |text| && !style.Bare?
    ensures Value(Quote(style) + Quoted(text, mask, style), Plain) == None
  {
    hide Quoted;
    var quoted := Quoted(text, mask, style);
    assert Value("", ModeOf(style)) == None;
    hide Value;
    QuotedRead(text, mask, style, "");
    assert quoted + "" == quoted;
    QuotesRead(style, quoted);
  }

  /** A character that goes on with the value when it follows the last piece. */
  predicate Sticks(c: char) {
    !IsSpace(c) && c != '\'' && c != '\"' && c != '\\'
  }

  lemma ValueStops(s: string)
    requires Separates(s)
    ensures Value(s, Plain) == Some(("", 0))
  {
  }

  lemma ValueGoesOn(s: string)
    requires s != "" && Sticks(s[0])
    ensures var r := Value(s, Plain); r.None? || r.value.0 != ""
  {
    ValueAt(s, Plain);
  }

  // Whole texts

  lemma {:induction false} BlankStops(s: string)
    requires s != "" && !IsSpace(s[0]) && s[0] != '#'
    ensures Blank(s) == 0
  {
  }

  /** ParsePair, given where its parts are. */
  lemma ParsePairAt(s: string, b: nat, t: string, i: nat, j: nat)
    requires b == Blank(s) && t == s[b..] && t != "" && t[0] != ')'
    requires Name(t) == Some((i, j)) && j < |t| && t[j] == '='
    ensures ParsePair(s) ==
            match Value(t[j + 1..], Plain) case None => None case Some(v) => Some(Parsed(Pair(t[i..j], v.0), b + j + 1 + v.1))
  {
    hide Blank, Name, Value;
  }

  /** One printed member, with anything after it, has its name and the value
      that its pieces and what sticks to them make. */
  lemma {:induction false} PrintedPair(item: Item, s: string)
    requires ItemOk(item)
    ensures ParsePair(Print(item) + s) ==
            match Value(s, Plain)
            case None => None
            case Some(v) => Some(Parsed(Pair(item.name, Text(item.pieces) + v.0), |Print(item)| + v.1))
  {
    hide Blank, Name, Value, Fill, PrintTypes, PrintPieces, ItemOk, Print;
    PrintedParts(item, s);
    var types, tail := PrintTypes(item.types), "=" + (PrintPieces(item.pieces) + s);
    var t := types + (item.name + tail);
    var before := Fill(item.before);
    TypesStart(item.types, item.name + tail);
    BlankFill(item.before, t);
    BlankStops(t);
    Cut(before, t);
    TypesSkipped(item.types, item.name + tail);
    NamePlain(item.name, tail);
    NameInside(types, item.name, tail);
    PiecesRead(item.pieces, s);
    ParsePairAt(before + t, |before|, t, |types|, |types| + |item.name|);
  }

  /** One printed member is read back, and no more than that is taken. */
  lemma {:induction false} ParsePrinted(item: Item, s: string)
    requires ItemOk(item) && Separates(s)
    ensures ParsePair(Print(item) + s) == Some(Parsed(PairOf(item), |Print(item)|))
  {
    hide Value, Print, ParsePair;
    PrintedPair(item, s);
    ValueStops(s);
    assert Text(item.pieces) + "" == Text(item.pieces);
  }

  /** It is not read back if something sticks to it. */
  lemma {:induction false} ParseGlued(item: Item, s: string)
    requires ItemOk(item) && s != "" && Sticks(s[0])
    ensures var r := ParsePair(Print(item) + s); r.None? || r.value.pair != PairOf(item)
  {
    hide Value, Print, ParsePair;
    PrintedPair(item, s);
    ValueGoesOn(s);
    var v := Value(s, Plain);
    assert v.Some? ==> |Text(item.pieces) + v.value.0| > |Text(item.pieces)|;
  }

  lemma NameInside(types: string, name: string, tail: string)
    requires tail != ""
    ensures var t, i, j := types + (name + tail), |types|, |types| + |name|;
      t[i..j] == name && t[j] == tail[0] && t[j + 1..] == tail[1..]
  {
  }

  lemma PrintedParts(item: Item, s: string)
    requires ItemOk(item)
    ensures NameOk(item.name) && TypesOk(item.types) && FillersOk(item.before) && PiecesOk(item.pieces)
    ensures var tail := "=" + (PrintPieces(item.pieces) + s);
      && Print(item) + s == Fill(item.before) + (PrintTypes(item.types) + (item.name + tail)) && tail[1..] == PrintPieces(item.pieces) + s
      && |Print(item)| == |Fill(item.before)| + |PrintTypes(item.types)| + |item.name| + 1 + |PrintPieces(item.pieces)|
  {
    hide Fill, PrintTypes, PrintPieces, TypesOk, FillersOk;
    var a, b, c, q := Fill(item.before), PrintTypes(item.types), item.name, PrintPieces(item.pieces);
    var tail := "=" + (q + s);
    assert Print(item) == a + b + c + "=" + q;
    assert Print(item) + s == a + b + c + tail by {
      Assoc(a + b + c + "=", q, s);
      Assoc(a + b + c, "=", q + s);
    }
    Assoc(a + b, c, tail);
    Assoc(a, b, c + tail);
  }

  function PrintAll(items: seq<Item>): string
    requires forall i :: 0 <= i < |items| ==> ItemOk(items[i])
  {
    if items == [] then "" else Print(items[0]) + PrintAll(items[1..])
  }

  function Pairs(items: seq<Item>): seq<Pair> {
    if items == [] then [] else [PairOf(items[0])] + Pairs(items[1..])
  }

  predicate Spaced(fs: seq<Filler>) {
    fs != [] && fs[0].Space?
  }

  predicate LayoutOk(items: seq<Item>, tail: seq<Filler>) {
    (forall i :: 0 <= i < |items| ==> ItemOk(items[i])) && FillersOk(tail)
  }

  /** White space follows every value: the layout of each member but the first
      starts with some, and so does what comes before the closing parenthesis. */
  predicate Separated(items: seq<Item>, tail: seq<Filler>) {
    (forall i :: 1 <= i < |items| ==> Spaced(items[i].before)) && (items != [] ==> Spaced(tail))
  }

  /** The layout right after the first member. */
  function NextLayout(items: seq<Item>, tail: seq<Filler>): seq<Filler>
    requires items != []
  {
    if |items| == 1 then tail else items[1].before
  }

  lemma SeparatedRest(items: seq<Item>, tail: seq<Filler>)
    requires items != [] && LayoutOk(items, tail)
    ensures LayoutOk(items[1..], tail)
    ensures Separated(items, tail) <==> Spaced(NextLayout(items, tail)) && Separated(items[1..], tail)
  {
    hide ItemOk, FillersOk, Spaced;
    var rest := items[1..];
    if Spaced(NextLayout(items, tail)) && Separated(rest, tail) {
      forall i | 1 <= i < |items| ensures Spaced(items[i].before) {
        assert i > 1 ==> items[i] == rest[i - 1];
      }
    }
    if Separated(items, tail) {
      forall i | 1 <= i < |rest| ensures Spaced(rest[i].before) {
        assert rest[i] == items[i + 1];
      }
    }
  }

  /** What a layout starts with. */
  lemma FillStarts(fs: seq<Filler>, s: string)
    requires FillersOk(fs) && s != "" && Sticks(s[0])
    ensures Fill(fs) + s != ""
    ensures if Spaced(fs) then IsSpace((Fill(fs) + s)[0]) else Sticks((Fill(fs) + s)[0])
  {
    if fs == [] {
      assert Fill(fs) + s == s;
    } else {
      assert (Fill(fs) + s)[0] == FillOne(fs[0])[0];
    }
  }

  /** What follows the first member. */
  lemma RestStarts(items: seq<Item>, tail: seq<Filler>, s: string)
    requires LayoutOk(items, tail) && items != [] && s != "" && s[0] == ')'
    ensures LayoutOk(items[1..], tail)
    ensures var rest := PrintAll(items[1..]) + (Fill(tail) + s);
      rest != "" && if Spaced(NextLayout(items, tail)) then IsSpace(rest[0]) else Sticks(rest[0])
  {
    hide Fill, PrintTypes, PrintPieces, Print, Spaced;
    var rest := items[1..];
    if rest == [] {
      assert PrintAll(rest) + (Fill(tail) + s) == Fill(tail) + s;
      FillStarts(tail, s);
    } else {
      var first := rest[0];
      assert first == items[1];
      PrintedStarts(first);
      assert (PrintAll(rest) + (Fill(tail) + s))[0] == Print(first)[0];
    }
  }

  lemma PrintedStarts(item: Item)
    requires ItemOk(item)
    ensures Print(item) != ""
    ensures if Spaced(item.before) then IsSpace(Print(item)[0]) else Sticks(Print(item)[0])
  {
    hide Fill, PrintTypes, PrintPieces, Print, Spaced;
    PrintedParts(item, "");
    assert Print(item) + "" == Print(item);
    var tail := "=" + (PrintPieces(item.pieces) + "");
    var t := PrintTypes(item.types) + (item.name + tail);
    TypesStart(item.types, item.name + tail);
    FillStarts(item.before, t);
  }

  lemma {:induction false} TailStops(tail: seq<Filler>, s: string)
    requires FillersOk(tail)
    ensures ParsePair(Fill(tail) + (")" + s)) == None
  {
    hide Blank, Fill, Name, Value;
    BlankFill(tail, ")" + s);
    BlankStops(")" + s);
    assert (Fill(tail) + (")" + s))[|Fill(tail)|..] == ")" + s;
  }

  lemma ParseAllOnce(s: string)
    ensures ParseAll(s) == match ParsePair(s) case None => [] case Some(p) => [p.pair] + ParseAll(s[p.used..])
  {
    hide ParsePair;
  }

  lemma PairsOnce(items: seq<Item>, a: Pair, b: seq<Pair>)
    requires items != []
    ensures Pairs(items) != [] && ([a] + b == Pairs(items) <==> a == PairOf(items[0]) && b == Pairs(items[1..]))
  {
    assert ([a] + b)[0] == a && ([a] + b)[1..] == b;
    assert Pairs(items)[0] == PairOf(items[0]) && Pairs(items)[1..] == Pairs(items[1..]);
  }

  /** Parsing again and again gives back the printed list if and only if white
      space follows every value. */
  lemma {:induction false} ParseAllPrinted(items: seq<Item>, tail: seq<Filler>, s: string)
    requires LayoutOk(items, tail)
    ensures ParseAll(PrintAll(items) + (Fill(tail) + (")" + s))) == Pairs(items) <==> Separated(items, tail)
    decreases |items|
  {
    hide ParseAll, ParsePair, Fill, Print, ItemOk, FillersOk, Spaced;
    var end := Fill(tail) + (")" + s);
    ParseAllOnce(PrintAll(items) + end);
    if items == [] {
      assert PrintAll(items) + end == end;
      TailStops(tail, s);
    } else {
      hide Separated, Pairs;
      RestStarts(items, tail, ")" + s);
      SeparatedRest(items, tail);
      var rest := PrintAll(items[1..]) + end;
      assert PrintAll(items) + end == Print(items[0]) + rest;
      var first := ParsePair(Print(items[0]) + rest);
      if Spaced(NextLayout(items, tail)) {
        ParsePrinted(items[0], rest);
        assert (Print(items[0]) + rest)[|Print(items[0])|..] == rest;
        ParseAllPrinted(items[1..], tail, s);
        PairsOnce(items, PairOf(items[0]), ParseAll(rest));
      } else {
        ParseGlued(items[0], rest);
        PairsOnce(items, if first.Some? then first.value.pair else PairOf(items[0]),
                  if first.Some? then ParseAll((Print(items[0]) + rest)[first.value.used..]) else []);
      }
    }
  }

  /** For every list of members and every layout, the parser inverts the printer
      if and only if white space follows every value. */
  lemma {:induction false} ParseInvertsPrintIff(head: seq<Filler>, items: seq<Item>, tail: seq<Filler>, s: string)
    requires FillersOk(head) && LayoutOk(items, tail)
    ensures ParseText(Fill(head) + ("(" + (PrintAll(items) + (Fill(tail) + (")" + s))))) == Some(Pairs(items)) <==> Separated(items, tail)
  {
    hide ParseAll, Blank, Fill, PrintAll, Separated;
    var body := PrintAll(items) + (Fill(tail) + (")" + s));
    var all := Fill(head) + ("(" + body);
    BlankFill(head, "(" + body);
    BlankStops("(" + body);
    assert all[|Fill(head)|] == '(';
    assert all[|Fill(head)| + 1..] == body;
    ParseAllPrinted(items, tail, s);
  }

  /** A text that does not begin with a parenthesis is refused. */
  lemma {:induction false} NoHeader(head: seq<Filler>, s: string)
    requires FillersOk(head) && (s == "" || (!IsSpace(s[0]) && s[0] != '#' && s[0] != '('))
    ensures ParseText(Fill(head) + s) == None
  {
    hide Blank, Fill, ParseAll;
    BlankFill(head, s);
    if s == "" {
      NothingBlank();
    } else {
      BlankStops(s);
      assert (Fill(head) + s)[|Fill(head)|] == s[0];
    }
  }

  lemma NothingBlank()
    ensures Blank("") == 0
  {
  }

  /** A member whose name does not begin with a letter is refused, and so is a
      name without a value. */
  lemma {:induction false} NoMember(before: seq<Filler>, name: string, s: string)
    requires FillersOk(before) && s != ""
    ensures !IsSpace(s[0]) && s[0] != '#' && !IsAlpha(s[0]) ==> ParsePair(Fill(before) + s) == None
    ensures NameOk(name) && !IsKeyword(name) && !IsAlnum(s[0]) && s[0] != '=' ==> ParsePair(Fill(before) + (name + s)) == None
  {
    hide Blank, Fill, Value;
    if !IsSpace(s[0]) && s[0] != '#' && !IsAlpha(s[0]) {
      BlankFill(before, s);
      BlankStops(s);
      Cut(Fill(before), s);
    }
    if NameOk(name) && !IsKeyword(name) && !IsAlnum(s[0]) && s[0] != '=' {
      var t := name + s;
      BlankFill(before, t);
      BlankStops(t);
      Cut(Fill(before), t);
      WordOf(name, s);
      Cut(name, s);
      hide Word, IsKeyword;
      NameAt(t);
    }
  }

  /** A closing parenthesis right after the quote becomes part of the value. */
  lemma ParenthesisSticks()
    ensures ParseText("(a='b')") == Some([Pair("a", "b)")])
  {
    hide Blank, ParsePair, ParseAll;
    var s := "a='b')";
    BlankStops("(a='b')");
    assert "(a='b')"[1..] == s && s[6..] == "";
    PairWithParenthesis();
    NoPair();
    ParseAllOnce(s);
    ParseAllOnce("");
    assert [Pair("a", "b)")] + [] == [Pair("a", "b)")];
  }

  lemma PairWithParenthesis()
    ensures ParsePair("a='b')") == Some(Parsed(Pair("a", "b)"), 6))
  {
    hide Blank, Name, Value, ParsePair;
    var s := "a='b')";
    BlankStops(s);
    assert s[0..] == s && s[0..1] == "a" && s[2..] == "'b')";
    assert "a" + "='b')" == s;
    NamePlain("a", "='b')");
    QuotedParenthesis();
    ParsePairAt(s, 0, s, 0, 1);
  }

  lemma QuotedParenthesis()
    ensures Value("'b')", Plain) == Some(("b)", 4))
  {
    hide Value;
    assert "'b')"[1..] == "b')" && "b')"[1..] == "')" && "')"[1..] == ")" && ")"[1..] == "";
    NoValue();
    ValueAt(")", Plain);
    assert [')'] + "" == ")" && ['b'] + ")" == "b)";
    ValueAt("')", Single);
    ValueAt("b')", Single);
    ValueAt("'b')", Plain);
  }

  lemma NoValue()
    ensures Value("", Plain) == Some(("", 0))
  {
  }

  lemma NoPair()
    ensures ParsePair("") == None
  {
  }
}
