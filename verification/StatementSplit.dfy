/** Splitting a batch at `;`. The splitter keeps a flag that flips at every quote not preceded by a
    backslash, while the value reader knows only doubled quotes. This module says exactly when the
    two agree about which semicolons separate statements. */
module StatementSplit {
  import opened Text
  import opened InsertSyntax

  /** The same text split by reading literals wherever a quote stands: it starts one, which is consumed
      as the value reader consumes it, and a `;` outside ends the statement. This is the value reader's
      own view of a text in which no quote stands in the middle of a bare value or in a delimited name,
      as in every printed batch. */
  function SplitAtLiterals(s: string, cur: string): (r: seq<string>)
    ensures r != []
    decreases |s|
  {
    if s == "" then [cur]
    else if s[0] == ';' then [cur] + SplitAtLiterals(s[1..], "")
    else if s[0] == '\'' then
      var rest := LiteralBody(s[1..]).rest;
      SplitAtLiterals(rest, cur + s[..|s| - |rest|])
    else SplitAtLiterals(s[1..], cur + [s[0]])
  }

  /** Both readings as flags: this one flips at every quote. */
  function SplitAtParity(s: string, inString: bool, cur: string): (r: seq<string>)
    ensures r != []
  {
    if s == "" then [cur]
    else
      var quoted := if s[0] == '\'' then !inString else inString;
      if s[0] == ';' && !quoted then [cur] + SplitAtParity(s[1..], quoted, "")
      else SplitAtParity(s[1..], quoted, cur + [s[0]])
  }

  /** A doubled quote flips the parity twice, so the flag is up exactly inside literals. */
  lemma {:induction false} LiteralsHaveParity(s: string, cur: string)
    ensures SplitAtLiterals(s, cur) == SplitAtParity(s, false, cur)
    decreases |s|
  {
    hide LiteralBody;
    if s != "" {
      if s[0] == '\'' {
        var rest := LiteralBody(s[1..]).rest;
        var body := s[1..];
        ParityInside(body, cur + ['\'']);
        assert s[..|s| - |rest|] == ['\''] + body[..|body| - |rest|];
        assert cur + s[..|s| - |rest|] == cur + ['\''] + body[..|body| - |rest|];
        LiteralsHaveParity(rest, cur + s[..|s| - |rest|]);
      } else if s[0] == ';' {
        LiteralsHaveParity(s[1..], "");
      } else {
        LiteralsHaveParity(s[1..], cur + [s[0]]);
      }
    }
  }

  lemma ParityStep(s: string, q: bool, cur: string)
    requires s != ""
    ensures s[0] == '\'' ==> SplitAtParity(s, q, cur) == SplitAtParity(s[1..], !q, cur + [s[0]])
    ensures s[0] != '\'' && q ==> SplitAtParity(s, q, cur) == SplitAtParity(s[1..], q, cur + [s[0]])
  {
  }

  /** Taking the first `n` characters, one of them first. */
  lemma OneThenRest(cur: string, s: string, n: nat)
    requires 0 < n <= |s|
    ensures cur + s[..n] == (cur + [s[0]]) + s[1..][..n - 1]
  {
  }

  lemma {:induction false} ParityInside(s: string, cur: string)
    ensures var rest := LiteralBody(s).rest;
            SplitAtParity(s, true, cur) == SplitAtParity(rest, false, cur + s[..|s| - |rest|])
    decreases |s|
  {
    var rest := LiteralBody(s).rest;
    var n := |s| - |rest|;
    if s == "" {
      assert cur + s[..n] == cur;
    } else {
      hide SplitAtParity;
      var tail := s[1..];
      ParityStep(s, true, cur);
      OneThenRest(cur, s, n);
      if s[0] == '\'' && |s| > 1 && s[1] == '\'' {
        ParityStep(tail, false, cur + [s[0]]);
        assert tail[1..] == s[2..];
        OneThenRest(cur + [s[0]], tail, n - 1);
        ParityInside(s[2..], cur + [s[0]] + [s[1]]);
      } else if s[0] == '\'' {
        assert tail[..n - 1] == "" && cur + [s[0]] + "" == cur + [s[0]];
      } else {
        ParityInside(tail, cur + [s[0]]);
      }
    }
  }

  // ---- Literals where the value reader finds them ----

  /** The value reader's place in the text: outside a literal, and whether only blanks have been seen
      since a `(` or `,`, so that a value may start here; inside a literal; or just behind a quote
      that ends it unless it is doubled. */
  datatype Reader = Outside(starts: bool) | Inside | Closing

  /** Whether a quote met here opens, closes or doubles. Read `anywhere`, every quote does; the value
      reader takes no notice of one in the middle of a bare value. */
  predicate Turns(anywhere: bool, r: Reader) {
    anywhere || !r.Outside? || r.starts
  }

  function Onward(anywhere: bool, r: Reader, c: char): Reader {
    if c == '\'' && Turns(anywhere, r) then (if r.Inside? then Closing else Inside)
    else if r.Inside? then Inside
    else if c == '(' || c == ',' then Outside(true)
    else Outside(r.Outside? && r.starts && IsSpace(c))
  }

  function SplitAtReader(anywhere: bool, s: string, r: Reader, cur: string): (slices: seq<string>)
    ensures slices != []
  {
    if s == "" then [cur]
    else if s[0] == ';' && !r.Inside? then [cur] + SplitAtReader(anywhere, s[1..], Onward(anywhere, r, ';'), "")
    else SplitAtReader(anywhere, s[1..], Onward(anywhere, r, s[0]), cur + [s[0]])
  }

  /** The text split by the literals of its values. */
  function SplitAtValues(sql: string): seq<string> {
    SplitAtReader(false, sql, Outside(false), "")
  }

  lemma ReaderStep(s: string, r: Reader, cur: string)
    requires s != "" && !(s[0] == ';' && !r.Inside?)
    ensures SplitAtReader(false, s, r, cur) == SplitAtReader(false, s[1..], Onward(false, r, s[0]), cur + [s[0]])
  {
  }

  /** Behind a quote that was not doubled the reader is outside, in the middle of a value. */
  lemma ClosedReader(s: string, cur: string)
    requires s == "" || s[0] != '\''
    ensures SplitAtReader(false, s, Closing, cur) == SplitAtReader(false, s, Outside(false), cur)
  {
  }

  lemma {:induction false} ReaderInside(s: string, cur: string)
    ensures var rest := LiteralBody(s).rest;
            SplitAtReader(false, s, Inside, cur) == SplitAtReader(false, rest, Outside(false), cur + s[..|s| - |rest|])
    decreases |s|
  {
    var rest := LiteralBody(s).rest;
    var n := |s| - |rest|;
    if s == "" {
      assert cur + s[..n] == cur;
    } else {
      hide SplitAtReader;
      var tail := s[1..];
      ReaderStep(s, Inside, cur);
      OneThenRest(cur, s, n);
      if s[0] == '\'' && |s| > 1 && s[1] == '\'' {
        ReaderStep(tail, Closing, cur + [s[0]]);
        assert tail[1..] == s[2..];
        OneThenRest(cur + [s[0]], tail, n - 1);
        ReaderInside(s[2..], cur + [s[0]] + [s[1]]);
      } else if s[0] == '\'' {
        assert tail[..n - 1] == "" && cur + [s[0]] + "" == cur + [s[0]];
        ClosedReader(tail, cur + [s[0]]);
      } else {
        ReaderInside(tail, cur + [s[0]]);
      }
    }
  }

  /** Where a value may start, a literal spans exactly what the value reader consumes. */
  lemma {:induction false} LiteralsAreValues(s: string, cur: string)
    requires SkipWs(s) != "" && SkipWs(s)[0] == '\''
    ensures var rest := Value(s).rest;
            |rest| < |s| && rest == s[|s| - |rest|..] &&
            SplitAtReader(false, s, Outside(true), cur) ==
            SplitAtReader(false, rest, Outside(false), cur + s[..|s| - |rest|])
    decreases |s|
  {
    hide SplitAtReader, CellOf;
    var rest := Value(s).rest;
    var n := |s| - |rest|;
    ReaderStep(s, Outside(true), cur);
    if IsSpace(s[0]) {
      LiteralsAreValues(s[1..], cur + [s[0]]);
    } else {
      ReaderInside(s[1..], cur + [s[0]]);
      RestIsSuffix(s[1..]);
    }
    OneThenRest(cur, s, n);
  }

  lemma {:induction false} RestIsSuffix(s: string)
    ensures LiteralBody(s).rest == s[|s| - |LiteralBody(s).rest|..]
    decreases |s|
  {
    if s != "" {
      if s[0] == '\'' && |s| > 1 && s[1] == '\'' { RestIsSuffix(s[2..]); } else { RestIsSuffix(s[1..]); }
    }
  }

  // ---- When the splitter agrees ----

  /** Quotes that exactly one of the two takes for the edge of a literal: the splitter ignores a quote
      after a backslash, the reader one in the middle of a value. */
  function Misread(anywhere: bool, s: string, afterBackslash: bool, r: Reader): nat {
    if s == "" then 0
    else
      (if s[0] == '\'' && afterBackslash == Turns(anywhere, r) then 1 else 0) +
      Misread(anywhere, s[1..], s[0] == '\\', Onward(anywhere, r, s[0]))
  }

  predicate SameCuts(anywhere: bool, s: string, e: bool, r: Reader, same: bool) {
    forall p :: 0 <= p < |s| && s[p] == ';' ==> (Misread(anywhere, s[..p], e, r) % 2 == 0) == same
  }

  lemma MisreadStep(anywhere: bool, s: string, e: bool, r: Reader, p: nat)
    requires p <= |s|
    ensures Misread(anywhere, s[..p], e, r) ==
            if p == 0 then 0
            else
              (if s[0] == '\'' && e == Turns(anywhere, r) then 1 else 0) +
              Misread(anywhere, s[1..][..p - 1], s[0] == '\\', Onward(anywhere, r, s[0]))
  {
    if p > 0 { assert s[..p][1..] == s[1..][..p - 1]; }
  }

  lemma SameCutsStep(anywhere: bool, s: string, e: bool, r: Reader, same: bool)
    requires s != ""
    ensures var next := if s[0] == '\'' && e == Turns(anywhere, r) then !same else same;
            SameCuts(anywhere, s, e, r, same) <==>
            (s[0] == ';' ==> same) && SameCuts(anywhere, s[1..], s[0] == '\\', Onward(anywhere, r, s[0]), next)
  {
    hide Misread, Onward, Turns;
    var tail, e', r' := s[1..], s[0] == '\\', Onward(anywhere, r, s[0]);
    var next := if s[0] == '\'' && e == Turns(anywhere, r) then !same else same;
    MisreadStep(anywhere, s, e, r, 0);
    if SameCuts(anywhere, s, e, r, same) {
      forall q | 0 <= q < |tail| && tail[q] == ';'
        ensures (Misread(anywhere, tail[..q], e', r') % 2 == 0) == next
      {
        MisreadStep(anywhere, s, e, r, q + 1);
        assert s[q + 1] == ';';
      }
    }
    if (s[0] == ';' ==> same) && SameCuts(anywhere, tail, e', r', next) {
      forall p | 0 <= p < |s| && s[p] == ';'
        ensures (Misread(anywhere, s[..p], e, r) % 2 == 0) == same
      {
        MisreadStep(anywhere, s, e, r, p);
        if p > 0 { assert tail[p - 1] == ';'; }
      }
    }
  }

  lemma {:induction false} SplitterExtends(s: string, e: bool, q: bool, cur: string)
    ensures |cur| <= |SplitFrom(s, e, q, cur)[0]|
    decreases |s|
  {
    if s != "" {
      SplitterExtends(s[1..], s[0] == '\\', if s[0] == '\'' && !e then !q else q, cur + [s[0]]);
    }
  }

  lemma {:induction false} ReaderExtends(anywhere: bool, s: string, r: Reader, cur: string)
    ensures |cur| <= |SplitAtReader(anywhere, s, r, cur)[0]|
    decreases |s|
  {
    if s != "" { ReaderExtends(anywhere, s[1..], Onward(anywhere, r, s[0]), cur + [s[0]]); }
  }

  lemma SameHead(cur: string, a: seq<string>, b: seq<string>)
    ensures [cur] + a == [cur] + b <==> a == b
  {
    if [cur] + a == [cur] + b { assert a == ([cur] + a)[1..] && b == ([cur] + b)[1..]; }
  }

  lemma {:induction false} FlagsAgree(anywhere: bool, s: string, e: bool, q: bool, r: Reader, cur: string)
    ensures SplitFrom(s, e, q, cur) == SplitAtReader(anywhere, s, r, cur) <==>
            SameCuts(anywhere, s, e, r, q == r.Inside?)
    decreases |s|
  {
    hide SameCuts, IsSpace;
    if s == "" {
      assert SameCuts(anywhere, s, e, r, q == r.Inside?) by { NoCuts(anywhere, e, r, q == r.Inside?); }
    } else {
      SameCutsStep(anywhere, s, e, r, q == r.Inside?);
      var tail, r' := s[1..], Onward(anywhere, r, s[0]);
      if s[0] == ';' {
        FlagsAgree(anywhere, tail, false, q, r', "");
        SplitterExtends(tail, false, q, cur + [';']);
        ReaderExtends(anywhere, tail, r', cur + [';']);
        FlagsAgree(anywhere, tail, false, q, r', cur + [';']);
        var a, b := SplitFrom(tail, false, q, ""), SplitAtReader(anywhere, tail, r', "");
        SameHead(cur, a, b);
        if q != r.Inside? { assert ([cur] + a)[0] == cur && ([cur] + b)[0] == cur; }
      } else {
        FlagsAgree(anywhere, tail, s[0] == '\\', if s[0] == '\'' && !e then !q else q, r', cur + [s[0]]);
      }
    }
  }

  lemma NoCuts(anywhere: bool, e: bool, r: Reader, same: bool)
    ensures SameCuts(anywhere, "", e, r, same)
  {
  }

  /** The splitter cuts where the value reader's literals say exactly when every `;` has an even number
      of misread quotes before it. */
  lemma SplitAgreesWithValues(sql: string)
    ensures Split(sql) == SplitAtValues(sql) <==>
            forall p :: 0 <= p < |sql| && sql[p] == ';' ==> Misread(false, sql[..p], false, Outside(false)) % 2 == 0
  {
    FlagsAgree(false, sql, false, false, Outside(false), "");
  }

  // ---- Texts in which every quote belongs to a literal ----

  /** How many quotes of `s` directly follow a backslash. */
  function EscapedQuotes(s: string, afterBackslash: bool): nat {
    if s == "" then 0
    else (if s[0] == '\'' && afterBackslash then 1 else 0) + EscapedQuotes(s[1..], s[0] == '\\')
  }

  lemma {:induction false} OnlyEscapes(s: string, e: bool, r: Reader)
    ensures Misread(true, s, e, r) == EscapedQuotes(s, e)
    decreases |s|
  {
    if s != "" { OnlyEscapes(s[1..], s[0] == '\\', Onward(true, r, s[0])); }
  }

  lemma {:induction false} ParityIsReader(s: string, r: Reader, cur: string)
    ensures SplitAtParity(s, r.Inside?, cur) == SplitAtReader(true, s, r, cur)
    decreases |s|
  {
    if s != "" {
      var r' := Onward(true, r, s[0]);
      ParityIsReader(s[1..], r', "");
      ParityIsReader(s[1..], r', cur + [s[0]]);
    }
  }

  /** When every quote opens, ends or is doubled in a literal, the splitter cuts where the literals say
      exactly when every `;` has an even number of backslash-preceded quotes before it. */
  lemma SplitAgreesExactly(sql: string)
    ensures Split(sql) == SplitAtLiterals(sql, "") <==>
            forall p :: 0 <= p < |sql| && sql[p] == ';' ==> EscapedQuotes(sql[..p], false) % 2 == 0
  {
    LiteralsHaveParity(sql, "");
    ParityIsReader(sql, Outside(false), "");
    FlagsAgree(true, sql, false, false, Outside(false), "");
    forall p | 0 <= p < |sql|
      ensures Misread(true, sql[..p], false, Outside(false)) == EscapedQuotes(sql[..p], false)
    {
      OnlyEscapes(sql[..p], false, Outside(false));
    }
  }

  /** In particular it always does for a text in which no quote follows a backslash. */
  lemma {:induction false} NoEscapedQuotes(s: string, e: bool)
    requires !(e && s != "" && s[0] == '\'')
    requires forall i :: 0 <= i && i + 1 < |s| && s[i] == '\\' ==> s[i + 1] != '\''
    ensures EscapedQuotes(s, e) == 0
    decreases |s|
  {
    if s != "" {
      var tail := s[1..];
      forall i | 0 <= i && i + 1 < |tail| && tail[i] == '\\'
        ensures tail[i + 1] != '\''
      {
        assert s[i + 1] == '\\';
      }
      NoEscapedQuotes(tail, s[0] == '\\');
    }
  }

  lemma SplitAgreesWithoutEscapes(sql: string)
    requires forall i :: 0 <= i && i + 1 < |sql| && sql[i] == '\\' ==> sql[i + 1] != '\''
    ensures Split(sql) == SplitAtLiterals(sql, "")
  {
    forall p | 0 <= p < |sql| && sql[p] == ';'
      ensures EscapedQuotes(sql[..p], false) % 2 == 0
    {
      NoEscapedQuotes(sql[..p], false);
    }
    SplitAgreesExactly(sql);
  }

  /** A literal that ends in a backslash hides the separator after it. */
  lemma BackslashHidesSeparator()
    ensures Split("'\\';x") != SplitAtLiterals("'\\';x", "")
  {
    var sql := "'\\';x";
    assert sql[3] == ';' && sql[..3] == "'\\'";
    assert "'\\'"[1..] == "\\'" && "\\'"[1..] == "'";
    assert EscapedQuotes("'", true) == 1;
    assert EscapedQuotes(sql[..3], false) == 1;
    SplitAgreesExactly(sql);
  }

  /** A quote in the middle of a bare value hides the separator too. */
  lemma StrayQuoteHidesSeparator()
    ensures Split("(a';x") != SplitAtValues("(a';x")
  {
    var sql := "(a';x";
    var here := Outside(false);
    assert sql[3] == ';' && sql[..3] == "(a'";
    assert "(a'"[1..] == "a'" && "a'"[1..] == "'" && "'"[1..] == "";
    assert Misread(false, "'", false, here) == 1;
    assert Misread(false, "a'", false, Outside(true)) == 1;
    assert Misread(false, sql[..3], false, here) == 1;
    SplitAgreesWithValues(sql);
  }

  // ---- Nothing is lost ----

  function Rejoined(slices: seq<string>): string
    requires slices != []
  {
    if |slices| == 1 then slices[0] else slices[0] + ";" + Rejoined(slices[1..])
  }

  lemma {:induction false} SplitRejoins(s: string, e: bool, q: bool, cur: string)
    ensures Rejoined(SplitFrom(s, e, q, cur)) == cur + s
    decreases |s|
  {
    if s == "" {
      assert cur + s == cur;
    } else {
      var quoted := if s[0] == '\'' && !e then !q else q;
      assert s == [s[0]] + s[1..];
      if s[0] == ';' && !quoted {
        SplitRejoins(s[1..], false, quoted, "");
        var more := SplitFrom(s[1..], false, quoted, "");
        assert ([cur] + more)[1..] == more;
        assert "" + s[1..] == s[1..];
        assert cur + ";" + s[1..] == cur + s;
      } else {
        SplitRejoins(s[1..], s[0] == '\\', quoted, cur + [s[0]]);
        assert cur + [s[0]] + s[1..] == cur + s;
      }
    }
  }

  /** The raw slices put back together with `;` are the text. */
  lemma SplitIsLossless(sql: string)
    ensures Rejoined(Split(sql)) == sql
  {
    SplitRejoins(sql, false, false, "");
    assert "" + sql == sql;
  }
}
