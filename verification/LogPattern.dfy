/**
 * The pattern language of LogFormatter (duan_src/log.cc): a reference lexer, the
 * printer it inverts, and what the code does with `%%` and with an unclosed brace.
 */
module LogPattern {
  import opened Common

  /** A pattern seen as text, a directive with or without a brace block, or the error marker. */
  datatype Piece =
    | Text(s: string)
    | Directive(name: string, arg: Option<string>)
    | Malformed

  /** What the lexer knows at the end: the pieces in order, and how many braces never closed. */
  datatype Lexed = Lexed(pieces: seq<Piece>, errors: nat)

  predicate IsAlpha(c: char) {
    'a' <= c <= 'z' || 'A' <= c <= 'Z'
  }

  /** First position at or after `n` that holds no letter. */
  function NameEnd(s: string, n: nat): (e: nat)
    requires n <= |s|
    ensures n <= e <= |s|
    ensures forall k :: n <= k < e ==> IsAlpha(s[k])
    ensures e < |s| ==> !IsAlpha(s[e])
    decreases |s| - n
  {
    if n < |s| && IsAlpha(s[n]) then NameEnd(s, n + 1) else n
  }

  /** First position at or after `n` that holds a closing brace. */
  function BraceEnd(s: string, n: nat): (c: nat)
    requires n <= |s|
    ensures n <= c <= |s|
    ensures forall k :: n <= k < c ==> s[k] != '}'
    ensures c < |s| ==> s[c] == '}'
    decreases |s| - n
  {
    if n < |s| && s[n] != '}' then BraceEnd(s, n + 1) else n
  }

  /** A directive starting at the `%` in front of `s`: the piece and where the scan goes on. */
  datatype Scan = Scanned(name: string, arg: Option<string>, next: nat) | Unclosed

  function ScanDirective(s: string): (r: Scan)
    requires |s| > 0
    ensures r.Scanned? ==> 1 <= r.next <= |s|
  {
    var e := NameEnd(s, 1);
    if e < |s| && s[e] == '{' then
      var c := BraceEnd(s, e + 1);
      if c == |s| then Unclosed else Scanned(s[1..e], Some(s[e + 1..c]), c + 1)
    else
      Scanned(s[1..e], None, e)
  }

  function Flush(text: string): seq<Piece> {
    if text == "" then [] else [Text(text)]
  }

  /** The lexer: `s` is still to be read, `text` is literal text not yet emitted. */
  function Lex(s: string, text: string): Lexed
    decreases |s|
  {
    if s == "" then
      Lexed(Flush(text), 0)
    else if s[0] != '%' then
      Lex(s[1..], text + [s[0]])
    else if |s| > 1 && s[1] == '%' then
      Lex(s[1..], text + "%")
    else
      match ScanDirective(s)
      case Scanned(name, arg, next) =>
        var rest := Lex(s[next..], "");
        Lexed(Flush(text) + [Directive(name, arg)] + rest.pieces, rest.errors)
      case Unclosed =>
        var rest := Lex(s[1..], text);
        Lexed([Malformed] + rest.pieces, rest.errors + 1)
  }

  // ---------------------------------------------------------------- printing

  const ERROR_TEXT := "<<pattern_error>>"

  function PrintPiece(p: Piece): string {
    match p
    case Text(s) => s
    case Directive(name, None) => "%" + name
    case Directive(name, Some(f)) => "%" + name + "{" + f + "}"
    case Malformed => ERROR_TEXT
  }

  function Print(ps: seq<Piece>): string {
    if ps == [] then "" else PrintPiece(ps[0]) + Print(ps[1..])
  }

  /** Literal text as the documented syntax writes it: a percent sign is doubled. */
  function Escape(s: string): (r: string)
    ensures |r| >= |s|
    ensures '%' in s <==> |r| > |s|
  {
    if s == "" then "" else (if s[0] == '%' then "%%" else [s[0]]) + Escape(s[1..])
  }

  function PrintEscaped(ps: seq<Piece>): string {
    if ps == [] then ""
    else (if ps[0].Text? then Escape(ps[0].s) else PrintPiece(ps[0])) + PrintEscaped(ps[1..])
  }

  /** Item lists the syntax can express: every piece can be told from what follows it. */
  predicate WellFormed(ps: seq<Piece>) {
    ps != [] ==>
      && WellFormed(ps[1..])
      && match ps[0]
         case Text(s) => s != "" && (|ps| > 1 ==> !ps[1].Text?)
         case Directive(name, None) =>
           && name != "" && (forall c <- name :: IsAlpha(c))
           && (|ps| > 1 && ps[1].Text? && ps[1].s != "" ==> !IsAlpha(ps[1].s[0]) && ps[1].s[0] != '{')
         case Directive(name, Some(f)) => (forall c <- name :: IsAlpha(c)) && '}' !in f
         case Malformed => false
  }

  predicate PercentFree(ps: seq<Piece>) {
    forall p <- ps :: p.Text? ==> '%' !in p.s
  }

  lemma PrintCons(p: Piece, rest: seq<Piece>)
    ensures Print([p] + rest) == PrintPiece(p) + Print(rest)
  {
    assert ([p] + rest)[1..] == rest;
  }

  lemma PrintFlushed(text: string, d: Piece, rest: seq<Piece>)
    ensures Print(Flush(text) + [d] + rest) == text + PrintPiece(d) + Print(rest)
  {
    var tail := [d] + rest;
    assert Flush(text) + [d] + rest == Flush(text) + tail;
    PrintCons(d, rest);
    FlushedFirst(text, tail);
    hide Print, PrintPiece, Flush;
    assert text + (PrintPiece(d) + Print(rest)) == text + PrintPiece(d) + Print(rest);
  }

  lemma FlushedFirst(text: string, tail: seq<Piece>)
    ensures Print(Flush(text) + tail) == text + Print(tail)
  {
    if text == "" {
      assert Flush(text) + tail == tail;
    } else {
      PrintCons(Text(text), tail);
    }
  }

  // ------------------------------------------------------------ losslessness

  lemma ScanIsLossless(s: string)
    requires |s| > 0 && s[0] == '%' && ScanDirective(s).Scanned?
    ensures var r := ScanDirective(s); PrintPiece(Directive(r.name, r.arg)) == s[..r.next]
  {
    var e := NameEnd(s, 1);
    assert s[..e] == "%" + s[1..e];
    if e < |s| && s[e] == '{' {
      var c := BraceEnd(s, e + 1);
      assert s[..c + 1] == s[..e] + "{" + s[e + 1..c] + "}";
    }
  }

  lemma AccountsScanned(s: string, text: string, rest: seq<Piece>)
    requires |s| > 0 && s[0] == '%' && ScanDirective(s).Scanned?
    ensures var r := ScanDirective(s);
      var shown := Print(Flush(text) + [Directive(r.name, r.arg)] + rest);
      && |shown| == |text| + r.next + |Print(rest)|
      && (Print(rest) == s[r.next..] ==> shown == text + s)
  {
    var r := ScanDirective(s);
    ScanIsLossless(s);
    PrintFlushed(text, Directive(r.name, r.arg), rest);
    assert text + s == text + s[..r.next] + s[r.next..];
  }

  lemma Regroup(text: string, s: string)
    requires s != ""
    ensures text + [s[0]] + s[1..] == text + s
  {
    assert s == [s[0]] + s[1..];
  }

  /** Every error marker replaces one percent sign by a longer text; nothing else changes the length. */
  lemma {:induction false} LexAccounts(s: string, text: string)
    ensures var r := Lex(s, text);
      && |Print(r.pieces)| == |text| + |s| + 16 * r.errors
      && (r.errors == 0 ==> Print(r.pieces) == text + s)
    decreases |s|
  {
    hide ScanDirective, NameEnd, BraceEnd;
    if s == "" {
      assert text + s == text;
    } else if s[0] != '%' {
      LexAccounts(s[1..], text + [s[0]]);
      Regroup(text, s);
    } else if |s| > 1 && s[1] == '%' {
      LexAccounts(s[1..], text + "%");
      Regroup(text, s);
    } else if ScanDirective(s).Scanned? {
      var next := ScanDirective(s).next;
      LexAccounts(s[next..], "");
      AccountsScanned(s, text, Lex(s[next..], "").pieces);
      assert "" + s[next..] == s[next..];
    } else {
      LexAccounts(s[1..], text);
      PrintFlushed("", Malformed, Lex(s[1..], text).pieces);
      assert Flush("") + [Malformed] == [Malformed];
    }
  }

  /** Printing the pieces reproduces the pattern exactly when no brace was left open. */
  lemma LosslessIff(p: string)
    ensures Print(Lex(p, "").pieces) == p <==> Lex(p, "").errors == 0
  {
    LexAccounts(p, "");
    assert "" + p == p;
  }

  // -------------------------------------------------------- error detection

  /** A directive begins at `k`, opens a brace after its name, and no brace closes afterwards. */
  predicate UnclosedAt(s: string, k: nat) {
    && k < |s| && s[k] == '%'
    && var e := NameEnd(s, k + 1);
    && e < |s| && s[e] == '{' && '}' !in s[e + 1..]
  }

  lemma NameEndShift(s: string, n: nat, d: nat)
    requires d <= n <= |s|
    ensures NameEnd(s, n) == NameEnd(s[d..], n - d) + d
  {
    assert forall k :: n <= k < |s| ==> s[d..][k - d] == s[k];
  }

  lemma UnclosedShift(s: string, k: nat, d: nat)
    requires d <= k < |s|
    ensures UnclosedAt(s, k) == UnclosedAt(s[d..], k - d)
  {
    NameEndShift(s, k + 1, d);
    var e := NameEnd(s, k + 1);
    if e < |s| {
      assert s[e + 1..] == s[d..][e - d + 1..];
    }
  }

  /** The error flag of the lexer says precisely that some directive's brace never closes. */
  lemma {:induction false} ErrorIff(s: string, text: string)
    ensures Lex(s, text).errors > 0 <==> exists k :: UnclosedAt(s, k)
    decreases |s|
  {
    if s != "" {
      var d := if s[0] == '%' && !(|s| > 1 && s[1] == '%') && ScanDirective(s).Scanned?
               then ScanDirective(s).next else 1;
      if s[0] != '%' {
        ErrorIff(s[1..], text + [s[0]]);
      } else if |s| > 1 && s[1] == '%' {
        ErrorIff(s[1..], text + "%");
      } else if ScanDirective(s).Scanned? {
        ErrorIff(s[d..], "");
      }
      if !(s[0] == '%' && !(|s| > 1 && s[1] == '%') && ScanDirective(s).Unclosed?) {
        forall k: nat | k < d ensures !UnclosedAt(s, k) {
          NothingUnclosedBefore(s, k);
        }
        forall k: nat | d <= k < |s| ensures UnclosedAt(s, k) == UnclosedAt(s[d..], k - d) {
          UnclosedShift(s, k, d);
        }
        if k: nat :| UnclosedAt(s[d..], k) {
          assert UnclosedAt(s, k + d);
        }
      } else {
        assert UnclosedAt(s, 0);
      }
    }
  }

  lemma NothingUnclosedBefore(s: string, k: nat)
    requires |s| > 0
    requires s[0] == '%' && !(|s| > 1 && s[1] == '%') ==> ScanDirective(s).Scanned? && k < ScanDirective(s).next
    requires s[0] != '%' || (|s| > 1 && s[1] == '%') ==> k == 0
    ensures !UnclosedAt(s, k)
  {
    if k < |s| && s[k] == '%' {
      var e := NameEnd(s, k + 1);
      assert forall j :: e < j < |s| ==> s[e + 1..][j - e - 1] == s[j];
    }
  }

  // -------------------------------------------------------------- round trip

  lemma {:induction false} LexText(lit: string, rest: string, text: string)
    requires '%' !in lit
    ensures Lex(lit + rest, text) == Lex(rest, text + lit)
    decreases |lit|
  {
    if lit == "" {
      assert lit + rest == rest && text + lit == text;
    } else {
      assert (lit + rest)[1..] == lit[1..] + rest;
      assert text + lit == text + [lit[0]] + lit[1..];
      LexText(lit[1..], rest, text + [lit[0]]);
    }
  }

  /** The scan of a printed directive gets past its name. */
  lemma ScanName(name: string, tail: string)
    requires forall c <- name :: IsAlpha(c)
    requires tail != "" ==> !IsAlpha(tail[0])
    ensures var s := "%" + name + tail; NameEnd(s, 1) == |name| + 1 && s[1..|name| + 1] == name
  {
    var s := "%" + name + tail;
    var n := |name| + 1;
    assert forall k :: 1 <= k < n ==> s[k] == name[k - 1];
    assert tail != "" ==> s[n] == tail[0];
    assert NameEnd(s, 1) >= n;
  }

  lemma ScanPrinted(name: string, arg: Option<string>, rest: string)
    requires forall c <- name :: IsAlpha(c)
    requires arg.Some? ==> '}' !in arg.value
    requires arg.None? && rest != "" ==> !IsAlpha(rest[0]) && rest[0] != '{'
    ensures var p := PrintPiece(Directive(name, arg)); ScanDirective(p + rest) == Scanned(name, arg, |p|)
  {
    var n := |name| + 1;
    if arg.Some? {
      ScanPrintedFormat(name, arg.value, rest);
    } else {
      ScanName(name, rest);
      assert rest != "" ==> ("%" + name + rest)[n] == rest[0];
    }
  }

  lemma FormatEnd(s: string, n: nat, f: string, rest: string)
    requires n <= |s| && s[n..] == f + ("}" + rest) && '}' !in f
    ensures |s| == n + |f| + 1 + |rest|
    ensures BraceEnd(s, n) == n + |f| && s[n..n + |f|] == f
  {
    assert |s[n..]| == |f| + 1 + |rest|;
    forall k | n <= k < n + |f| ensures s[k] == f[k - n] {
      assert s[k] == s[n..][k - n];
    }
    assert s[n + |f|] == s[n..][|f|] == '}';
  }

  lemma ScanPrintedFormat(name: string, f: string, rest: string)
    requires (forall c <- name :: IsAlpha(c)) && '}' !in f
    ensures var p := PrintPiece(Directive(name, Some(f))); ScanDirective(p + rest) == Scanned(name, Some(f), |p|)
  {
    var p := PrintPiece(Directive(name, Some(f)));
    var s := p + rest;
    var after := f + ("}" + rest);
    var n := |name| + 1;
    assert s == "%" + name + ("{" + after);
    ScanName(name, "{" + after);
    assert s[n] == '{' && s[n + 1..] == after;
    FormatEnd(s, n + 1, f, rest);
    assert |p| == n + |f| + 2;
    hide NameEnd, BraceEnd, PrintPiece;
  }

  lemma LexDirective(name: string, arg: Option<string>, rest: string, text: string)
    requires forall c <- name :: IsAlpha(c)
    requires arg.Some? ==> '}' !in arg.value
    requires arg.None? ==> name != "" && (rest != "" ==> !IsAlpha(rest[0]) && rest[0] != '{')
    ensures var d := Directive(name, arg);
      var after := Lex(rest, "");
      Lex(PrintPiece(d) + rest, text) == Lexed(Flush(text) + [d] + after.pieces, after.errors)
  {
    var p := PrintPiece(Directive(name, arg));
    ScanPrinted(name, arg, rest);
    assert (p + rest)[|p|..] == rest;
    assert p[1] != '%' by {
      if name != "" { assert p[1] == name[0]; }
    }
    assert (p + rest)[1] == p[1];
  }

  /** What may follow a piece in a well-formed list, in terms of the printed remainder. */
  lemma WellFormedHead(ps: seq<Piece>)
    requires WellFormed(ps) && PercentFree(ps) && ps != []
    ensures WellFormed(ps[1..]) && PercentFree(ps[1..])
    ensures ps[0].Text? ==> ps[0].s != "" && '%' !in ps[0].s && (ps[1..] == [] || !ps[1].Text?)
    ensures !ps[0].Text? ==>
      && ps[0].Directive? && (forall c <- ps[0].name :: IsAlpha(c))
      && (ps[0].arg.Some? ==> '}' !in ps[0].arg.value)
      && (ps[0].arg.None? ==> ps[0].name != "" && var rest := Print(ps[1..]);
          rest != "" ==> !IsAlpha(rest[0]) && rest[0] != '{')
  {
    assert ps[0] in ps;
    if |ps| > 1 {
      assert ps[1] == ps[1..][0] && ps[1] in ps;
    }
  }

  lemma LexPrintedText(lit: string, rest: string, tail: seq<Piece>)
    requires lit != "" && '%' !in lit
    requires Lex(rest, lit) == Lexed(Flush(lit) + tail, 0)
    ensures Lex(lit + rest, "") == Lexed([Text(lit)] + tail, 0)
  {
    LexText(lit, rest, "");
    assert "" + lit == lit;
  }

  lemma LexPrintedDirective(name: string, arg: Option<string>, rest: string, tail: seq<Piece>, text: string)
    requires forall c <- name :: IsAlpha(c)
    requires arg.Some? ==> '}' !in arg.value
    requires arg.None? ==> name != "" && (rest != "" ==> !IsAlpha(rest[0]) && rest[0] != '{')
    requires Lex(rest, "") == Lexed(Flush("") + tail, 0)
    ensures Lex(PrintPiece(Directive(name, arg)) + rest, text)
      == Lexed(Flush(text) + ([Directive(name, arg)] + tail), 0)
  {
    LexDirective(name, arg, rest, text);
    assert Flush(text) + [Directive(name, arg)] + (Flush("") + tail) == Flush(text) + ([Directive(name, arg)] + tail);
  }

  /** Lexing what was printed gives back the same pieces, whatever text is still pending. */
  lemma {:induction false} LexPrinted(ps: seq<Piece>, text: string)
    requires WellFormed(ps) && PercentFree(ps)
    requires text != "" ==> ps == [] || !ps[0].Text?
    ensures Lex(Print(ps), text) == Lexed(Flush(text) + ps, 0)
    decreases |ps|
  {
    if ps == [] {
      assert Flush(text) + ps == Flush(text);
      return;
    }
    WellFormedHead(ps);
    var head, tail := ps[0], ps[1..];
    assert ps == [head] + tail;
    if head.Text? {
      LexPrinted(tail, head.s);
      LexPrintedText(head.s, Print(tail), tail);
      assert Flush(text) + ps == ps;
    } else {
      LexPrinted(tail, "");
      LexPrintedDirective(head.name, head.arg, Print(tail), tail, text);
    }
  }

  lemma EscapedLength(ps: seq<Piece>)
    ensures |PrintEscaped(ps)| >= |Print(ps)|
    ensures PercentFree(ps) ==> PrintEscaped(ps) == Print(ps)
    ensures !PercentFree(ps) ==> |PrintEscaped(ps)| > |Print(ps)|
  {
    if ps != [] {
      EscapedLength(ps[1..]);
      if ps[0].Text? && '%' !in ps[0].s {
        EscapeIsIdentity(ps[0].s);
      }
      assert PercentFree(ps) <==> (ps[0].Text? ==> '%' !in ps[0].s) && PercentFree(ps[1..]) by {
        assert ps == [ps[0]] + ps[1..];
      }
    }
  }

  lemma EscapeIsIdentity(s: string)
    requires '%' !in s
    ensures Escape(s) == s
  {
    if s != "" {
      EscapeIsIdentity(s[1..]);
      assert s == [s[0]] + s[1..];
    }
  }

  /** The documented syntax reads back as written exactly when no literal needs `%%`. */
  lemma {:induction false} RoundTripIff(ps: seq<Piece>)
    requires WellFormed(ps)
    ensures Lex(PrintEscaped(ps), "").pieces == ps <==> PercentFree(ps)
  {
    EscapedLength(ps);
    if PercentFree(ps) {
      LexPrinted(ps, "");
      assert [] + ps == ps;
    } else {
      LexAccounts(PrintEscaped(ps), "");
    }
  }

  /** The smallest failure: one escaped percent sign yields a directive nobody wrote. */
  lemma EscapedPercentExample()
    ensures WellFormed([Text("%")]) && PrintEscaped([Text("%")]) == "%%"
    ensures Lex("%%", "").pieces == [Text("%"), Directive("", None)]
  {
    assert Escape("%") == "%%" + Escape("");
    assert PrintEscaped([Text("%")]) == Escape("%") + PrintEscaped([]);
    var s, one := "%%", "%";
    assert one[1..] == "" && s[1..] == one && "" + one == one;
    assert NameEnd(one, 1) == 1;
    assert ScanDirective(one) == Scanned("", None, 1);
    assert Lex("", "").pieces == [];
    assert Lex(one, one).pieces == Flush(one) + [Directive("", None)] + [];
    assert Lex(s, "") == Lex(one, one);
  }

  // --------------------------------------------------------------- the repair

  /** The lexer that reads both characters of `%%`. */
  function LexSkipping(s: string, text: string): Lexed
    decreases |s|
  {
    if s == "" then
      Lexed(Flush(text), 0)
    else if s[0] != '%' then
      LexSkipping(s[1..], text + [s[0]])
    else if |s| > 1 && s[1] == '%' then
      LexSkipping(s[2..], text + "%")
    else
      match ScanDirective(s)
      case Scanned(name, arg, next) =>
        var rest := LexSkipping(s[next..], "");
        Lexed(Flush(text) + [Directive(name, arg)] + rest.pieces, rest.errors)
      case Unclosed =>
        var rest := LexSkipping(s[1..], text);
        Lexed([Malformed] + rest.pieces, rest.errors + 1)
  }

  lemma SkippingChar(c: char, rest: string, text: string)
    ensures LexSkipping((if c == '%' then "%%" else [c]) + rest, text) == LexSkipping(rest, text + [c])
  {
    hide ScanDirective, NameEnd, BraceEnd;
    var s := (if c == '%' then "%%" else [c]) + rest;
    if c == '%' {
      assert s[2..] == rest && s[0] == '%' && s[1] == '%';
    } else {
      assert s[1..] == rest && s[0] == c;
    }
  }

  lemma {:induction false} SkippingText(lit: string, rest: string, text: string)
    ensures LexSkipping(Escape(lit) + rest, text) == LexSkipping(rest, text + lit)
    decreases |lit|
  {
    hide LexSkipping;
    if lit == "" {
      assert Escape(lit) + rest == rest && text + lit == text;
    } else {
      var after := Escape(lit[1..]) + rest;
      assert Escape(lit) + rest == (if lit[0] == '%' then "%%" else [lit[0]]) + after;
      Regroup(text, lit);
      SkippingChar(lit[0], after, text);
      SkippingText(lit[1..], rest, text + [lit[0]]);
    }
  }

  lemma SkippingDirective(name: string, arg: Option<string>, rest: string, text: string)
    requires forall c <- name :: IsAlpha(c)
    requires arg.Some? ==> '}' !in arg.value
    requires arg.None? ==> name != "" && (rest != "" ==> !IsAlpha(rest[0]) && rest[0] != '{')
    ensures var d := Directive(name, arg);
      var after := LexSkipping(rest, "");
      LexSkipping(PrintPiece(d) + rest, text) == Lexed(Flush(text) + [d] + after.pieces, after.errors)
  {
    var p := PrintPiece(Directive(name, arg));
    ScanPrinted(name, arg, rest);
    assert (p + rest)[|p|..] == rest;
    assert p[1] != '%' by {
      if name != "" { assert p[1] == name[0]; }
    }
    assert (p + rest)[1] == p[1];
  }

  /** What follows a bare directive in escaped print cannot be taken for a part of it. */
  lemma EscapedHead(ps: seq<Piece>)
    requires WellFormed(ps) && ps != [] && ps[0].Directive?
    ensures (forall c <- ps[0].name :: IsAlpha(c)) && (ps[0].arg.Some? ==> '}' !in ps[0].arg.value)
    ensures ps[0].arg.None? ==> ps[0].name != "" && var rest := PrintEscaped(ps[1..]);
      rest != "" ==> !IsAlpha(rest[0]) && rest[0] != '{'
  {
    if |ps| > 1 {
      var next := ps[1..][0];
      assert next == ps[1] && WellFormed(ps[1..]);
      if next.Text? {
        assert Escape(next.s) != "" && (Escape(next.s)[0] == '%' || Escape(next.s)[0] == next.s[0]);
      }
    }
  }

  lemma {:induction false} SkippingReadsBack(ps: seq<Piece>, text: string)
    requires WellFormed(ps)
    requires text != "" ==> ps == [] || !ps[0].Text?
    ensures LexSkipping(PrintEscaped(ps), text) == Lexed(Flush(text) + ps, 0)
    decreases |ps|
  {
    if ps == [] {
      assert Flush(text) + ps == Flush(text);
      return;
    }
    var head, tail := ps[0], ps[1..];
    assert ps == [head] + tail;
    hide LexSkipping, ScanDirective, Escape;
    if head.Text? {
      SkippingReadsBack(tail, head.s);
      SkippingText(head.s, PrintEscaped(tail), text);
      assert text + head.s == head.s;
      assert Flush(text) + ps == Flush(head.s) + tail;
    } else {
      SkippingReadsBack(tail, "");
      EscapedHead(ps);
      SkippingDirective(head.name, head.arg, PrintEscaped(tail), text);
      assert Flush(text) + [head] + (Flush("") + tail) == Flush(text) + ps;
    }
  }

  /** Reading both characters of `%%` gives back every well-formed list, percent signs included. */
  lemma {:induction false} RepairedRoundTrip(ps: seq<Piece>)
    requires WellFormed(ps)
    ensures LexSkipping(PrintEscaped(ps), "") == Lexed(ps, 0)
  {
    SkippingReadsBack(ps, "");
    assert Flush("") + ps == ps;
  }
}
