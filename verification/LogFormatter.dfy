/**
 * LogFormatter::init as the code runs it: one scan with an inner loop over `n` and
 * `fmt_status`, then one pass that looks every directive up in the format table.
 */
module LogFormatterCode {
  import opened Common
  import opened LogPattern
  import opened LogItems

  // What the inner loop has read, at each of its three exits.

  lemma SliceShift(p: string, i: nat, a: nat, b: nat)
    requires i <= a <= b <= |p|
    ensures p[i..][a - i..b - i] == p[a..b]
  {
  }

  lemma ScanBare(p: string, i: nat, n: nat)
    requires i < n <= |p|
    requires forall k :: i < k < n ==> IsAlpha(p[k])
    requires n < |p| ==> !IsAlpha(p[n]) && p[n] != '{'
    ensures ScanDirective(p[i..]) == Scanned(p[i + 1..n], None, n - i)
  {
    var s := p[i..];
    assert forall k :: 0 <= k < |s| ==> s[k] == p[i + k];
    assert NameEnd(s, 1) == n - i;
    SliceShift(p, i, i + 1, n);
  }

  lemma ScanBrace(p: string, i: nat, b: nat, n: nat)
    requires i < b < n <= |p|
    requires forall k :: i < k < b ==> IsAlpha(p[k])
    requires p[b] == '{'
    requires forall k :: b < k < n ==> p[k] != '}'
    requires n < |p| ==> p[n] == '}'
    ensures ScanDirective(p[i..]) == if n == |p| then Unclosed else Scanned(p[i + 1..b], Some(p[b + 1..n]), n + 1 - i)
  {
    var s := p[i..];
    assert forall k :: 0 <= k < |s| ==> s[k] == p[i + k];
    assert NameEnd(s, 1) == b - i;
    assert BraceEnd(s, b - i + 1) == n - i;
    SliceShift(p, i, i + 1, b);
    SliceShift(p, i, b + 1, n);
  }

  // The outer loop: what is collected so far, continued by the lexer, is the whole answer.

  ghost predicate Reading(p: string, i: nat, nstr: string, vec: seq<Token>, error: bool, whole: (seq<Token>, bool)) {
    && i <= |p|
    && vec + EraseAll(Lex(p[i..], nstr).pieces) == whole.0
    && (error || Lex(p[i..], nstr).errors > 0) == whole.1
  }

  lemma ReadStart(p: string, error: bool)
    ensures Reading(p, 0, "", [], error, (EraseAll(Lex(p, "").pieces), error || Lex(p, "").errors > 0))
  {
    assert p[0..] == p;
  }

  lemma ReadEnd(p: string, nstr: string, vec: seq<Token>, error: bool, whole: (seq<Token>, bool))
    requires Reading(p, |p|, nstr, vec, error, whole)
    ensures whole == (if nstr == "" then vec else vec + [Token(nstr, "", false)], error)
  {
    assert p[|p|..] == "";
    assert Lex("", nstr) == Lexed(Flush(nstr), 0);
    assert EraseAll(Flush(nstr)) == if nstr == "" then [] else [Token(nstr, "", false)];
    assert vec + [] == vec;
  }

  lemma ReadPlain(p: string, i: nat, nstr: string, vec: seq<Token>, error: bool, whole: (seq<Token>, bool))
    requires Reading(p, i, nstr, vec, error, whole) && i < |p|
    requires p[i] != '%' || (i + 1 < |p| && p[i + 1] == '%')
    ensures Reading(p, i + 1, nstr + [p[i]], vec, error, whole)
  {
    assert p[i..][1..] == p[i + 1..];
  }

  lemma EmitDirective(vec: seq<Token>, text: string, d: Piece, rest: seq<Piece>)
    ensures vec + EraseAll(Flush(text) + [d] + rest)
         == (if text == "" then vec else vec + [Token(text, "", false)]) + [Erase(d)] + EraseAll(rest)
  {
  }

  lemma ReadWhole(p: string, i: nat, nstr: string, vec: seq<Token>, error: bool, whole: (seq<Token>, bool))
    requires Reading(p, i, nstr, vec, error, whole) && i < |p| && p[i] == '%'
    requires !(i + 1 < |p| && p[i + 1] == '%')
    requires ScanDirective(p[i..]).Scanned?
    ensures var r := ScanDirective(p[i..]);
      var flushed := if nstr == "" then vec else vec + [Token(nstr, "", false)];
      Reading(p, i + r.next, "", flushed + [Token(r.name, ArgText(r.arg), true)], error, whole)
  {
    hide ScanDirective, EraseAll;
    var r := ScanDirective(p[i..]);
    var after := Lex(p[i + r.next..], "");
    assert p[i..][r.next..] == p[i + r.next..];
    assert Lex(p[i..], nstr) == Lexed(Flush(nstr) + [Directive(r.name, r.arg)] + after.pieces, after.errors);
    hide Lex, Flush, ArgText;
    EmitDirective(vec, nstr, Directive(r.name, r.arg), after.pieces);
  }

  lemma ReadBroken(p: string, i: nat, nstr: string, vec: seq<Token>, error: bool, whole: (seq<Token>, bool))
    requires Reading(p, i, nstr, vec, error, whole) && i < |p| && p[i] == '%'
    requires !(i + 1 < |p| && p[i + 1] == '%')
    requires ScanDirective(p[i..]).Unclosed?
    ensures Reading(p, i + 1, nstr, vec + [Token(ERROR_TEXT, "", false)], true, whole)
  {
    assert p[i..][1..] == p[i + 1..];
    var rest := Lex(p[i + 1..], nstr).pieces;
    EraseAppend([Malformed], rest);
  }

  class LogFormatter {
    const pattern: string
    var items: seq<Item>
    var error: bool

    /**
     * The error flag is up exactly for a brace that does not close or a name that is not in the
     * table, and an item shows such a name. Otherwise the items show the pattern again, up to
     * empty braces.
     */
    constructor (pattern: string)
      ensures this.pattern == pattern
      ensures items == ItemsOf(Lex(pattern, "").pieces)
      ensures error <==>
        || (exists k :: UnclosedAt(pattern, k))
        || exists p :: p in Lex(pattern, "").pieces && p.Directive? && !Letter(p.name)
      ensures forall p <- Lex(pattern, "").pieces :: p.Directive? && !Letter(p.name) ==>
        Literal("<<error_format %" + p.name + ">>") in items
      ensures (exists k :: UnclosedAt(pattern, k)) ==> Literal("<<pattern_error>>") in items
      ensures !error ==>
        && WithoutEmptyBraces(Shown(items)) == WithoutEmptyBraces(pattern)
        && (Shown(items) == pattern <==> forall p <- Lex(pattern, "").pieces :: !HasEmptyBraces(p))
    {
      this.pattern := pattern;
      items, error := [], false;
      new;
      hide *;
      Init();
      assert items == ItemsOf(Lex(pattern, "").pieces);
      Built(pattern, items, error);
    }

    /** The inner loop: name and format of the directive at `i`, and the position after it. */
    method ReadDirective(i: nat) returns (str: string, fmt: string, n: nat, fmtStatus: int)
      requires i < |pattern| && pattern[i] == '%'
      ensures i < n <= |pattern|
      ensures fmtStatus == 0 || fmtStatus == 1
      ensures match ScanDirective(pattern[i..])
              case Unclosed => fmtStatus == 1 && fmt == ""
              case Scanned(name, arg, next) => fmtStatus == 0 && str == name && fmt == ArgText(arg) && n == i + next
    {
      n := i + 1;
      fmtStatus := 0;
      var fmtBegin := 0;
      str, fmt := "", "";
      while n < |pattern|
        invariant i < n <= |pattern|
        invariant fmtStatus == 0 || fmtStatus == 1
        invariant fmt == ""
        invariant fmtStatus == 0 ==>
          && (forall k :: i < k < n ==> IsAlpha(pattern[k]))
          && str == if n == |pattern| then pattern[i + 1..] else ""
        invariant fmtStatus == 1 ==>
          && i < fmtBegin < n && pattern[fmtBegin] == '{'
          && (forall k :: i < k < fmtBegin ==> IsAlpha(pattern[k]))
          && (forall k :: fmtBegin < k < n ==> pattern[k] != '}')
          && (n < |pattern| ==> str == pattern[i + 1..fmtBegin])
      {
        if fmtStatus == 0 && !IsAlpha(pattern[n]) && pattern[n] != '{' && pattern[i] != '}' {
          str := pattern[i + 1..n];
          ScanBare(pattern, i, n);
          return;
        }
        if fmtStatus == 0 {
          if pattern[n] == '{' {
            str := pattern[i + 1..n];
            fmtStatus := 1;
            fmtBegin := n;
            n := n + 1;
            continue;
          }
        }
        if fmtStatus == 1 {
          if pattern[n] == '}' {
            fmt := pattern[fmtBegin + 1..n];
            ScanBrace(pattern, i, fmtBegin, n);
            fmtStatus := 0;
            n := n + 1;
            return;
          }
        }
        n := n + 1;
        if n == |pattern| {
          if str == "" {
            str := pattern[i + 1..];
          }
        }
      }
      if fmtStatus == 0 {
        ScanBare(pattern, i, n);
      } else {
        ScanBrace(pattern, i, fmtBegin, n);
      }
    }

    /** The outer loop over the pattern. */
    method Tokenise() returns (vec: seq<Token>)
      modifies this`error
      ensures vec == EraseAll(Lex(pattern, "").pieces)
      ensures error == (old(error) || Lex(pattern, "").errors > 0)
    {
      hide Reading, Lex, EraseAll;
      ghost var whole := (EraseAll(Lex(pattern, "").pieces), error || Lex(pattern, "").errors > 0);
      vec := [];
      var nstr := "";
      var i := 0;
      ReadStart(pattern, error);
      while i < |pattern|
        invariant 0 <= i <= |pattern|
        invariant Reading(pattern, i, nstr, vec, error, whole)
      {
        if pattern[i] != '%' {
          ReadPlain(pattern, i, nstr, vec, error, whole);
          nstr := nstr + [pattern[i]];
          i := i + 1;
          continue;
        }
        if i + 1 < |pattern| {
          if pattern[i + 1] == '%' {
            ReadPlain(pattern, i, nstr, vec, error, whole);
            nstr := nstr + "%";
            i := i + 1;
            continue;
          }
        }
        var str, fmt, n, fmtStatus := ReadDirective(i);
        if fmtStatus == 0 {
          ReadWhole(pattern, i, nstr, vec, error, whole);
          if nstr != "" {
            vec := vec + [Token(nstr, "", false)];
            nstr := "";
          }
          vec := vec + [Token(str, fmt, true)];
          i := n;
          assert Reading(pattern, i, nstr, vec, error, whole);
        } else {
          ReadBroken(pattern, i, nstr, vec, error, whole);
          error := true;
          vec := vec + [Token(ERROR_TEXT, fmt, false)];
          i := i + 1;
          assert Reading(pattern, i, nstr, vec, error, whole);
        }
      }
      ReadEnd(pattern, nstr, vec, error, whole);
      if nstr != "" {
        vec := vec + [Token(nstr, "", false)];
      }
    }

    /** The pass that turns tokens into items (lines 528-543). */
    method Build(vec: seq<Token>)
      modifies this
      ensures |items| == |old(items)| + |vec| && items[..|old(items)|] == old(items)
      ensures forall k :: 0 <= k < |vec| ==> items[|old(items)| + k] == ItemOf(vec[k])
      ensures error <==> old(error) || exists k :: 0 <= k < |vec| && !Known(vec[k])
    {
      hide InTable;
      var k := 0;
      while k < |vec|
        invariant 0 <= k <= |vec|
        invariant |items| == |old(items)| + k && items[..|old(items)|] == old(items)
        invariant forall j :: 0 <= j < k ==> items[|old(items)| + j] == ItemOf(vec[j])
        invariant error <==> old(error) || exists j :: 0 <= j < k && !Known(vec[j])
      {
        var t := vec[k];
        if !t.isDirective {
          items := items + [Literal(t.str)];
        } else if !InTable(t.str) {
          items := items + [Literal("<<error_format %" + t.str + ">>")];
          error := true;
        } else {
          items := items + [Formatter(t.str, t.fmt)];
        }
        k := k + 1;
      }
    }

    method Init()
      modifies this
      ensures var r := Lex(pattern, "");
        && |items| == |old(items)| + |r.pieces| && items[..|old(items)|] == old(items)
        && (forall k :: 0 <= k < |r.pieces| ==> items[|old(items)| + k] == ItemOf(Erase(r.pieces[k])))
        && (error <==> old(error) || r.errors > 0 || exists k :: 0 <= k < |r.pieces| && !Known(Erase(r.pieces[k])))
    {
      hide Lex, Known, ItemOf, Erase;
      var vec := Tokenise();
      Build(vec);
    }
  }
}
