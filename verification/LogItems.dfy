/**
 * The items LogFormatter::init builds from the pieces of a pattern: shown again they are the
 * pattern, and every list of items that a pattern can express is built from it.
 */
module LogItems {
  import opened Common
  import opened LogPattern

  /** The tuples (str, format, type) that init collects; type 1 is a directive. */
  datatype Token = Token(str: string, fmt: string, isDirective: bool)

  /** The formatter items: plain text, or a table entry built from its format argument. */
  datatype Item = Literal(text: string) | Formatter(name: string, fmt: string)

  const FORMATS: set<string> := {"m", "p", "r", "c", "t", "n", "d", "f", "l", "T", "F", "N"}

  function ArgText(arg: Option<string>): string {
    if arg.None? then "" else arg.value
  }

  function Erase(p: Piece): Token {
    match p
    case Text(s) => Token(s, "", false)
    case Directive(name, arg) => Token(name, ArgText(arg), true)
    case Malformed => Token(ERROR_TEXT, "", false)
  }

  function EraseAll(ps: seq<Piece>): (ts: seq<Token>)
    ensures |ts| == |ps|
    ensures forall k :: 0 <= k < |ps| ==> ts[k] == Erase(ps[k])
  {
    if ps == [] then [] else [Erase(ps[0])] + EraseAll(ps[1..])
  }

  lemma EraseAppend(a: seq<Piece>, b: seq<Piece>)
    ensures EraseAll(a + b) == EraseAll(a) + EraseAll(b)
  {
  }

  predicate InTable(name: string) {
    name in FORMATS
  }

  predicate Known(t: Token) {
    !t.isDirective || InTable(t.str)
  }

  function ItemOf(t: Token): Item {
    if !t.isDirective then Literal(t.str)
    else if InTable(t.str) then Formatter(t.str, t.fmt)
    else Literal("<<error_format %" + t.str + ">>")
  }

  // ------------------------------------------------------ what items show

  /** The names in the table, letter by letter. */
  predicate Letter(name: string) {
    |name| == 1 && name[0] in "mprctndflTFN"
  }

  lemma TwelveLetters(name: string)
    ensures InTable(name) <==> Letter(name)
  {
    if |name| == 1 { assert name == [name[0]]; }
  }

  /** An item as a pattern writes it; an empty format needs no braces. */
  function ItemText(item: Item): string {
    match item
    case Literal(text) => text
    case Formatter(name, fmt) => "%" + name + if fmt == "" then "" else "{" + fmt + "}"
  }

  function Shown(items: seq<Item>): string {
    if items == [] then "" else ItemText(items[0]) + Shown(items[1..])
  }

  function ItemsOf(ps: seq<Piece>): (items: seq<Item>)
    ensures |items| == |ps|
    ensures forall k :: 0 <= k < |ps| ==> items[k] == ItemOf(Erase(ps[k]))
  {
    if ps == [] then [] else [ItemOf(Erase(ps[0]))] + ItemsOf(ps[1..])
  }

  /** A string with every `{}` taken out. */
  function WithoutEmptyBraces(s: string): string {
    if s == "" then ""
    else if |s| > 1 && s[0] == '{' && s[1] == '}' then WithoutEmptyBraces(s[2..])
    else [s[0]] + WithoutEmptyBraces(s[1..])
  }

  predicate HasEmptyBraces(p: Piece) {
    p.Directive? && p.arg == Some("")
  }

  function EmptyBraces(ps: seq<Piece>): nat {
    if ps == [] then 0 else (if HasEmptyBraces(ps[0]) then 1 else 0) + EmptyBraces(ps[1..])
  }

  lemma EmptyBracesIff(ps: seq<Piece>)
    ensures EmptyBraces(ps) == 0 <==> forall p <- ps :: !HasEmptyBraces(p)
  {
    if ps != [] {
      EmptyBracesIff(ps[1..]);
      assert forall p :: p in ps <==> p == ps[0] || p in ps[1..];
    }
  }

  predicate Understood(p: Piece) {
    !p.Malformed? && (p.Directive? ==> Letter(p.name))
  }

  /** An item shows its piece, but for empty braces. */
  lemma PieceShown(p: Piece)
    requires Understood(p)
    ensures ItemText(ItemOf(Erase(p))) == if HasEmptyBraces(p) then "%" + p.name else PrintPiece(p)
    ensures HasEmptyBraces(p) ==> PrintPiece(p) == "%" + p.name + "{}"
  {
    if p.Directive? {
      TwelveLetters(p.name);
      if p.arg == Some("") { assert "{" + "" + "}" == "{}"; }
      if p.arg.Some? { assert "%" + p.name + ("{" + p.arg.value + "}") == PrintPiece(p); }
    }
  }

  lemma {:induction false} ShownLength(ps: seq<Piece>)
    requires forall p <- ps :: Understood(p)
    ensures |Shown(ItemsOf(ps))| + 2 * EmptyBraces(ps) == |Print(ps)|
    ensures EmptyBraces(ps) == 0 ==> Shown(ItemsOf(ps)) == Print(ps)
  {
    if ps != [] {
      assert ps[0] in ps && forall p :: p in ps[1..] ==> p in ps;
      PieceShown(ps[0]);
      ShownLength(ps[1..]);
      ShownCons(ps);
      hide Shown, ItemsOf, ItemText, PrintPiece;
    }
  }

  lemma ShownCons(ps: seq<Piece>)
    requires ps != []
    ensures Shown(ItemsOf(ps)) == ItemText(ItemOf(Erase(ps[0]))) + Shown(ItemsOf(ps[1..]))
  {
    assert ItemsOf(ps)[1..] == ItemsOf(ps[1..]);
  }

  /** Braces taken out on both sides of a seam are those taken out of the whole. */
  lemma {:induction false} Seam(a: string, b: string)
    requires a == "" || a[|a| - 1] != '{' || b == "" || b[0] != '}'
    ensures WithoutEmptyBraces(a + b) == WithoutEmptyBraces(a) + WithoutEmptyBraces(b)
    decreases |a|
  {
    if a == "" {
      assert a + b == b;
    } else if |a| > 1 && a[0] == '{' && a[1] == '}' {
      Seam(a[2..], b);
      assert (a + b)[2..] == a[2..] + b;
    } else {
      Seam(a[1..], b);
      assert (a + b)[1..] == a[1..] + b;
    }
  }

  /** Neither a text followed by a directive nor a directive leaves a brace open at its end. */
  predicate Closes(p: Piece, rest: string) {
    p.Text? ==> rest == "" || rest[0] != '}'
  }

  /** A directive begins with its percent sign and does not end with an opening brace. */
  lemma DirectiveEnds(p: Piece)
    requires p.Directive? && Letter(p.name)
    ensures var s := PrintPiece(p); s != "" && s[0] == '%' && s[|s| - 1] != '{'
    ensures var s := "%" + p.name; s != "" && s[0] == '%' && s[|s| - 1] != '{'
  {
  }

  lemma BareIsStripped(name: string, shown: string, printed: string)
    requires Letter(name) && WithoutEmptyBraces(shown) == WithoutEmptyBraces(printed)
    ensures WithoutEmptyBraces("%" + name + shown) == WithoutEmptyBraces("%" + name + "{}" + printed)
  {
    var bare := "%" + name;
    DirectiveEnds(Directive(name, None));
    Seam(bare, shown);
    Seam(bare, "{}" + printed);
    assert ("{}" + printed)[2..] == printed;
    assert WithoutEmptyBraces("{}" + printed) == WithoutEmptyBraces(printed);
    assert bare + ("{}" + printed) == bare + "{}" + printed;
  }

  lemma PieceStripped(p: Piece, shown: string, printed: string)
    requires Understood(p) && Closes(p, shown) && Closes(p, printed)
    requires WithoutEmptyBraces(shown) == WithoutEmptyBraces(printed)
    ensures WithoutEmptyBraces(ItemText(ItemOf(Erase(p))) + shown) == WithoutEmptyBraces(PrintPiece(p) + printed)
  {
    PieceShown(p);
    if HasEmptyBraces(p) {
      BareIsStripped(p.name, shown, printed);
    } else {
      if p.Directive? { DirectiveEnds(p); }
      hide ItemText, ItemOf, Erase, PrintPiece, WithoutEmptyBraces;
      Seam(PrintPiece(p), shown);
      Seam(PrintPiece(p), printed);
    }
  }

  /** What the lexer puts behind a text is a directive, an error marker, or nothing. */
  ghost predicate TextsApart(ps: seq<Piece>) {
    forall k :: 0 <= k < |ps| - 1 && ps[k].Text? ==> !ps[k + 1].Text?
  }

  lemma {:induction false} LexTextsApart(s: string, text: string)
    ensures TextsApart(Lex(s, text).pieces)
    decreases |s|
  {
    hide ScanDirective, NameEnd, BraceEnd;
    if s == "" {
    } else if s[0] != '%' {
      LexTextsApart(s[1..], text + [s[0]]);
    } else if |s| > 1 && s[1] == '%' {
      LexTextsApart(s[1..], text + "%");
    } else if ScanDirective(s).Scanned? {
      LexTextsApart(s[ScanDirective(s).next..], "");
    } else {
      LexTextsApart(s[1..], text);
    }
  }

  lemma TailApart(ps: seq<Piece>)
    requires ps != [] && TextsApart(ps) && forall p <- ps :: Understood(p)
    ensures TextsApart(ps[1..]) && forall p <- ps[1..] :: Understood(p)
  {
    hide Understood;
    assert forall p :: p in ps[1..] ==> p in ps;
  }

  lemma NextCloses(ps: seq<Piece>)
    requires ps != [] && TextsApart(ps) && forall p <- ps :: Understood(p)
    ensures Closes(ps[0], Shown(ItemsOf(ps[1..]))) && Closes(ps[0], Print(ps[1..]))
  {
    var rest := ps[1..];
    if rest == [] {
      NothingShown();
    } else if ps[0].Text? {
      var p := rest[0];
      assert p == ps[1] && p in ps && p.Directive?;
      hide Print, Shown, ItemsOf, ItemText, ItemOf, Erase, PrintPiece, Understood, TextsApart;
      DirectiveShown(p);
      ShownCons(rest);
      assert [p] + rest[1..] == rest;
      PrintCons(p, rest[1..]);
    }
  }

  lemma NothingShown()
    ensures Shown(ItemsOf([])) == Print([]) == ""
  {
  }

  lemma DirectiveShown(p: Piece)
    requires Understood(p) && p.Directive?
    ensures ItemText(ItemOf(Erase(p))) != "" && ItemText(ItemOf(Erase(p)))[0] == '%'
    ensures PrintPiece(p) != "" && PrintPiece(p)[0] == '%'
  {
    PieceShown(p);
    DirectiveEnds(p);
  }

  lemma {:induction false} ShownStripped(ps: seq<Piece>)
    requires TextsApart(ps) && forall p <- ps :: Understood(p)
    ensures WithoutEmptyBraces(Shown(ItemsOf(ps))) == WithoutEmptyBraces(Print(ps))
  {
    if ps != [] {
      hide *;
      var rest := ps[1..];
      assert ps[0] in ps && ps == [ps[0]] + rest;
      TailApart(ps);
      NextCloses(ps);
      ShownStripped(rest);
      PieceStripped(ps[0], Shown(ItemsOf(rest)), Print(rest));
      ShownCons(ps);
      PrintCons(ps[0], rest);
    }
  }

  /**
   * If every brace closes and every name is in the table, the items show the pattern again, up
   * to empty braces: nothing of it is lost, moved or added. They show it exactly if and only
   * if no directive has empty braces.
   */
  lemma PatternShown(p: string)
    requires forall k :: !UnclosedAt(p, k)
    requires forall x <- Lex(p, "").pieces :: x.Directive? ==> Letter(x.name)
    ensures var ps := Lex(p, "").pieces;
      && WithoutEmptyBraces(Shown(ItemsOf(ps))) == WithoutEmptyBraces(p)
      && |Shown(ItemsOf(ps))| + 2 * EmptyBraces(ps) == |p|
      && (Shown(ItemsOf(ps)) == p <==> forall x <- ps :: !HasEmptyBraces(x))
  {
    var ps := Lex(p, "").pieces;
    ErrorIff(p, "");
    LosslessIff(p);
    NoneMalformed(p, "");
    LexTextsApart(p, "");
    assert forall x <- ps :: Understood(x);
    ShownStripped(ps);
    ShownLength(ps);
    EmptyBracesIff(ps);
  }

  lemma {:induction false} NoneMalformed(s: string, text: string)
    ensures Lex(s, text).errors == 0 ==> forall p <- Lex(s, text).pieces :: !p.Malformed?
    decreases |s|
  {
    hide ScanDirective, NameEnd, BraceEnd;
    if s == "" {
    } else if s[0] != '%' {
      NoneMalformed(s[1..], text + [s[0]]);
    } else if |s| > 1 && s[1] == '%' {
      NoneMalformed(s[1..], text + "%");
    } else if ScanDirective(s).Scanned? {
      NoneMalformed(s[ScanDirective(s).next..], "");
    }
  }

  lemma UnknownIff(ps: seq<Piece>)
    ensures (exists k :: 0 <= k < |ps| && !Known(Erase(ps[k]))) <==>
      exists p :: p in ps && p.Directive? && !Letter(p.name)
    ensures forall p <- ps :: p.Directive? && !Letter(p.name) ==>
      Literal("<<error_format %" + p.name + ">>") in ItemsOf(ps)
  {
    forall p | p in ps ensures Known(Erase(p)) <==> !(p.Directive? && !Letter(p.name)) {
      if p.Directive? { TwelveLetters(p.name); }
    }
    forall p | p in ps && p.Directive? && !Letter(p.name)
      ensures Literal("<<error_format %" + p.name + ">>") in ItemsOf(ps)
    {
      TwelveLetters(p.name);
      var k :| 0 <= k < |ps| && ps[k] == p;
      assert ItemsOf(ps)[k] == ItemOf(Erase(p));
    }
  }

  lemma {:induction false} MarkerIff(s: string, text: string)
    ensures Malformed in Lex(s, text).pieces <==> Lex(s, text).errors > 0
    decreases |s|
  {
    hide ScanDirective, NameEnd, BraceEnd;
    if s == "" {
    } else if s[0] != '%' {
      MarkerIff(s[1..], text + [s[0]]);
    } else if |s| > 1 && s[1] == '%' {
      MarkerIff(s[1..], text + "%");
    } else if ScanDirective(s).Scanned? {
      MarkerIff(s[ScanDirective(s).next..], "");
    }
  }

  lemma MarkerShown(ps: seq<Piece>)
    requires Malformed in ps
    ensures Literal("<<pattern_error>>") in ItemsOf(ps)
  {
    var k :| 0 <= k < |ps| && ps[k] == Malformed;
    assert ItemsOf(ps)[k] == Literal("<<pattern_error>>");
  }

  /** What building the pieces of a pattern comes to. */
  lemma Built(p: string, items: seq<Item>, error: bool)
    requires items == ItemsOf(Lex(p, "").pieces)
    requires var r := Lex(p, "");
      error <==> r.errors > 0 || exists k :: 0 <= k < |r.pieces| && !Known(Erase(r.pieces[k]))
    ensures error <==>
      || (exists k :: UnclosedAt(p, k))
      || exists x :: x in Lex(p, "").pieces && x.Directive? && !Letter(x.name)
    ensures forall x <- Lex(p, "").pieces :: x.Directive? && !Letter(x.name) ==>
      Literal("<<error_format %" + x.name + ">>") in items
    ensures (exists k :: UnclosedAt(p, k)) ==> Literal("<<pattern_error>>") in items
    ensures !error ==>
      && WithoutEmptyBraces(Shown(items)) == WithoutEmptyBraces(p)
      && (Shown(items) == p <==> forall x <- Lex(p, "").pieces :: !HasEmptyBraces(x))
  {
    hide Lex, UnclosedAt, ItemsOf, Shown, WithoutEmptyBraces, Known, Erase, Letter;
    UnknownIff(Lex(p, "").pieces);
    ErrorIff(p, "");
    MarkerIff(p, "");
    if Malformed in Lex(p, "").pieces { MarkerShown(Lex(p, "").pieces); }
    if !error { PatternShown(p); }
  }

  // -------------------------------------------------------- items read back

  /** Lists of items a pattern can express, by what stands next to what. */
  predicate Writable(items: seq<Item>) {
    items != [] ==>
      && Writable(items[1..])
      && match items[0]
         case Literal(text) => text != "" && '%' !in text && (|items| > 1 ==> !items[1].Literal?)
         case Formatter(name, fmt) =>
           && Letter(name) && '}' !in fmt
           && (fmt == "" && |items| > 1 && items[1].Literal? && items[1].text != "" ==>
                 var c := items[1].text[0]; !('a' <= c <= 'z') && !('A' <= c <= 'Z') && c != '{')
  }

  function PieceOf(item: Item): Piece {
    match item
    case Literal(text) => Text(text)
    case Formatter(name, fmt) => Directive(name, if fmt == "" then None else Some(fmt))
  }

  function PiecesOf(items: seq<Item>): (ps: seq<Piece>)
    ensures |ps| == |items|
    ensures forall k :: 0 <= k < |items| ==> ps[k] == PieceOf(items[k])
  {
    if items == [] then [] else [PieceOf(items[0])] + PiecesOf(items[1..])
  }

  lemma PieceReadsBack(item: Item)
    requires item.Formatter? ==> Letter(item.name)
    ensures PrintPiece(PieceOf(item)) == ItemText(item) && ItemOf(Erase(PieceOf(item))) == item
  {
    if item.Formatter? {
      TwelveLetters(item.name);
      hide Letter, InTable, ItemText, PrintPiece;
      PieceShown(PieceOf(item));
    }
  }

  lemma LetterIsAlpha(name: string)
    requires Letter(name)
    ensures name != "" && forall c <- name :: IsAlpha(c)
  {
  }

  lemma {:induction false} PiecesReadBack(items: seq<Item>)
    requires forall i <- items :: i.Formatter? ==> Letter(i.name)
    ensures Print(PiecesOf(items)) == Shown(items) && ItemsOf(PiecesOf(items)) == items
  {
    if items != [] {
      hide ItemText, PrintPiece, Print, ItemOf, Erase, PieceOf, Letter;
      var ps, rest := PiecesOf(items), items[1..];
      assert items[0] in items && forall i :: i in rest ==> i in items;
      PieceReadsBack(items[0]);
      PiecesReadBack(rest);
      assert ps[1..] == PiecesOf(rest) && ps == [ps[0]] + ps[1..];
      PrintCons(ps[0], ps[1..]);
      assert items == [items[0]] + rest;
    }
  }

  lemma {:induction false} WritableIsWellFormed(items: seq<Item>)
    requires Writable(items)
    ensures WellFormed(PiecesOf(items)) && PercentFree(PiecesOf(items))
    ensures forall i <- items :: i.Formatter? ==> Letter(i.name)
  {
    if items != [] {
      var ps, rest := PiecesOf(items), items[1..];
      WritableIsWellFormed(rest);
      assert ps[1..] == PiecesOf(rest) && ps == [ps[0]] + ps[1..] && items == [items[0]] + rest;
      if items[0].Formatter? { LetterIsAlpha(items[0].name); }
      hide PiecesOf, ItemText, Erase, ItemOf;
    }
  }

  /** Written as a pattern and built again, every such list comes back, formats included. */
  lemma ItemsReadBack(items: seq<Item>)
    requires Writable(items)
    ensures Lex(Shown(items), "").errors == 0 && ItemsOf(Lex(Shown(items), "").pieces) == items
  {
    WritableIsWellFormed(items);
    PiecesReadBack(items);
    LexPrinted(PiecesOf(items), "");
    assert Flush("") + PiecesOf(items) == PiecesOf(items);
  }
}
