/** The statement compiler of a mapped query: every `#{name}` placeholder
    of the template (PARAM_PATTERN, `#\{([\w\d]+)\}`) becomes a JDBC `?`,
    and the normalized name goes to `paramNames`, left to right. Both
    snapshots of the query class compile templates with this one algorithm. */
module Queries {
  import opened Wrappers

  /** `\w` and `\d`: ASCII letters, digits and the underscore. */
  predicate IsWordChar(c: char) {
    ('a' <= c <= 'z') || ('A' <= c <= 'Z') || ('0' <= c <= '9') || c == '_'
  }

  predicate IsUpper(c: char) {
    'A' <= c <= 'Z'
  }

  /** `Character.toLowerCase` on an ASCII letter. */
  function ToLower(c: char): (r: char)
    ensures IsUpper(c) ==> r as int == c as int + 32 && 'a' <= r <= 'z'
    ensures !IsUpper(c) ==> r == c
  {
    if IsUpper(c) then (c as int + 32) as char else c
  }

  // ---------------------------------------------------------------------
  // Name normalization (`getNormalizedFieldName`)

  /** Drops every `_` and lower-cases every upper-case letter. */
  function Normalize(name: string): (r: string)
    ensures |r| <= |name|
  {
    if name == [] then []
    else (if name[0] == '_' then [] else [ToLower(name[0])]) + Normalize(name[1..])
  }

  /** Normalizing from position `k`: the character there, then the rest. */
  lemma NormalizeStep(s: string, k: nat)
    requires k < |s|
    ensures Normalize(s[k..]) == (if s[k] == '_' then [] else [ToLower(s[k])]) + Normalize(s[k + 1..])
  {
    assert s[k..][1..] == s[k + 1..];
  }

  /** Normalization works character by character. */
  lemma {:induction false} NormalizeAppend(a: string, b: string)
    ensures Normalize(a + b) == Normalize(a) + Normalize(b)
    decreases |a|
  {
    if a == [] {
      assert a + b == b;
    } else {
      var head := if a[0] == '_' then [] else [ToLower(a[0])];
      assert (a + b)[0] == a[0];
      assert (a + b)[1..] == a[1..] + b;
      assert Normalize(a + b) == head + Normalize(a[1..] + b);
      assert Normalize(a) == head + Normalize(a[1..]);
      NormalizeAppend(a[1..], b);
    }
  }

  /** The output has no underscore and no upper-case letter, and keeps
      every other character. */
  lemma {:induction false} NormalizeClean(name: string)
    ensures forall i :: 0 <= i < |Normalize(name)| ==> Normalize(name)[i] != '_' && !IsUpper(Normalize(name)[i])
    ensures (forall i :: 0 <= i < |name| ==> name[i] != '_') ==> |Normalize(name)| == |name|
    decreases |name|
  {
    if name != [] {
      NormalizeClean(name[1..]);
      if forall i :: 0 <= i < |name| ==> name[i] != '_' {
        assert forall i :: 0 <= i < |name[1..]| ==> name[1..][i] == name[i + 1];
      }
    }
  }

  /** A name with no underscore and no upper-case letter is already normal. */
  lemma {:induction false} NormalizeFixed(name: string)
    requires forall i :: 0 <= i < |name| ==> name[i] != '_' && !IsUpper(name[i])
    ensures Normalize(name) == name
    decreases |name|
  {
    if name != [] {
      assert forall i :: 0 <= i < |name[1..]| ==> name[1..][i] == name[i + 1];
      NormalizeFixed(name[1..]);
    }
  }

  /** Normalizing twice is normalizing once. */
  lemma NormalizeIdempotent(name: string)
    ensures Normalize(Normalize(name)) == Normalize(name)
  {
    NormalizeClean(name);
    NormalizeFixed(Normalize(name));
  }

  lemma NormalizeFirst()
    ensures Normalize("FIRST") == "first" && Normalize("first") == "first"
  {
    var s := "FIRST";
    assert Normalize(s[5..]) == [];
    assert Normalize(s[4..]) == "t";
    assert Normalize(s[3..]) == "st";
    assert Normalize(s[2..]) == "rst";
    assert Normalize(s[1..]) == "irst";
    assert s[0..] == s;
    NormalizeFixed("first");
  }

  lemma NormalizeName()
    ensures Normalize("NAME") == "name" && Normalize("Name") == "name" && Normalize("name") == "name"
    ensures Normalize("_NAME") == "name" && Normalize("_name") == "name"
  {
    var s := "NAME";
    assert Normalize(s[4..]) == [];
    assert Normalize(s[3..]) == "e";
    assert Normalize(s[2..]) == "me";
    assert Normalize(s[1..]) == "ame";
    assert s[0..] == s;
    NormalizeFixed("name");
    assert "Name"[1..] == "name"[1..];
    assert "_NAME"[1..] == "NAME";
    assert "_name"[1..] == "name";
  }

  /** The column spellings of one Java field normalize alike: upper snake
      case, camel case and lower snake case. */
  lemma NormalizeExamples()
    ensures Normalize("FIRST_NAME") == "firstname"
    ensures Normalize("firstName") == "firstname"
    ensures Normalize("first_name") == "firstname"
  {
    assert "FIRST_NAME" == "FIRST" + "_NAME";
    assert "firstName" == "first" + "Name";
    assert "first_name" == "first" + "_name";
    assert "first" + "name" == "firstname";
    NormalizeFirst();
    NormalizeName();
    NormalizeAppend("FIRST", "_NAME");
    NormalizeAppend("first", "Name");
    NormalizeAppend("first", "_name");
  }

  /** `getNormalizedFieldName`: the `StringBuilder` loop. */
  method GetNormalizedFieldName(fName: string) returns (r: string)
    ensures r == Normalize(fName)
  {
    var sb: string := [];
    var i := 0;
    while i < |fName|
      invariant 0 <= i <= |fName|
      invariant sb == Normalize(fName[..i])
    {
      var ch := fName[i];
      assert fName[..i + 1] == fName[..i] + [ch];
      NormalizeAppend(fName[..i], [ch]);
      i := i + 1;
      if ch == '_' {
        continue;
      }
      if IsUpper(ch) {
        ch := ToLower(ch);
      }
      sb := sb + [ch];
    }
    assert fName[..i] == fName;
    r := sb;
  }

  // ---------------------------------------------------------------------
  // Placeholders (`PARAM_PATTERN` and `formatQuery`)

  /** The length of the longest run of word characters starting at `i`. */
  function WordRun(s: string, i: nat): (n: nat)
    requires i <= |s|
    ensures i + n <= |s|
    ensures forall j :: i <= j < i + n ==> IsWordChar(s[j])
    ensures i + n == |s| || !IsWordChar(s[i + n])
    decreases |s| - i
  {
    if i < |s| && IsWordChar(s[i]) then 1 + WordRun(s, i + 1) else 0
  }

  /** Where a match of PARAM_PATTERN that begins at `i` ends: the index of
      its `}`. The name is a maximal run of word characters, since `}` is not
      one, so backtracking never yields a shorter match. */
  function PlaceholderAt(s: string, i: nat): (r: Option<nat>)
    requires i <= |s|
    ensures r.Some? ==> i + 3 <= r.value < |s| && s[i] == '#' && s[i + 1] == '{' && s[r.value] == '}'
    ensures r.Some? ==> forall j :: i + 2 <= j < r.value ==> IsWordChar(s[j])
  {
    if i + 1 < |s| && s[i] == '#' && s[i + 1] == '{' then
      var n := WordRun(s, i + 2);
      if n > 0 && i + 2 + n < |s| && s[i + 2 + n] == '}' then Some(i + 2 + n) else None
    else None
  }

  /** A template read as text and placeholders. */
  datatype Token = Lit(c: char) | Param(name: string)

  /** The token that starts at `i` and where the scan resumes after it. */
  function NextToken(s: string, i: nat): (r: (Token, nat))
    requires i < |s|
    ensures i < r.1 <= |s|
  {
    match PlaceholderAt(s, i)
    case Some(end) => (Param(s[i + 2..end]), end + 1)
    case None => (Lit(s[i]), i + 1)
  }

  /** `Matcher.find` from `i` on: the leftmost match is taken, the scan goes
      on after it, and a position where no match starts is plain text. */
  function TokenizeFrom(s: string, i: nat): seq<Token>
    requires i <= |s|
    decreases |s| - i
  {
    if i == |s| then []
    else [NextToken(s, i).0] + TokenizeFrom(s, NextToken(s, i).1)
  }

  /** Reading a template into tokens loses nothing: the tokens spell the
      template back, so placeholders are exactly the spans that become `?`
      and all other text is verbatim; every placeholder found names at
      least one word character. */
  function Tokenize(s: string): (ts: seq<Token>)
    ensures Untokenize(ts) == s
    ensures forall k :: 0 <= k < |ts| ==> WellFormedToken(ts[k])
  {
    TokenizeFromSpells(s, 0);
    assert s[0..] == s;
    TokenizeFrom(s, 0)
  }

  function Spell(t: Token): string {
    match t
    case Lit(c) => [c]
    case Param(name) => "#{" + name + "}"
  }

  function Untokenize(ts: seq<Token>): string {
    if ts == [] then [] else Spell(ts[0]) + Untokenize(ts[1..])
  }

  /** Placeholders name at least one word character. */
  predicate WellFormedToken(t: Token) {
    t.Param? ==> |t.name| > 0 && forall j :: 0 <= j < |t.name| ==> IsWordChar(t.name[j])
  }

  /** The SQL text: each placeholder becomes `?`, all other text stays. */
  function SqlOf(ts: seq<Token>): string {
    if ts == [] then []
    else (match ts[0] case Lit(c) => [c] case Param(_) => "?") + SqlOf(ts[1..])
  }

  /** The normalized placeholder names in order, duplicates kept. */
  function NamesOf(ts: seq<Token>): seq<string> {
    if ts == [] then []
    else (match ts[0] case Lit(_) => [] case Param(name) => [Normalize(name)]) + NamesOf(ts[1..])
  }

  /** `formatQuery`: the compiled SQL with the list of parameter names,
      one name for each `?` that compiling adds. */
  function FormatQuery(sql: string): (r: (string, seq<string>))
    ensures CountChar('?', r.0) == CountChar('?', sql) + |r.1|
  {
    QuestionMarksOf(Tokenize(sql));
    (SqlOf(Tokenize(sql)), NamesOf(Tokenize(sql)))
  }

  lemma SliceSplit(s: string, i: nat, j: nat)
    requires i <= j <= |s|
    ensures s[i..] == s[i..j] + s[j..]
  {
  }

  lemma SliceConcat(s: string, a: nat, b: nat, c: nat)
    requires a <= b <= c <= |s|
    ensures s[a..c] == s[a..b] + s[b..c]
  {
  }

  /** Each token spells back its own span of the template, and a
      placeholder names at least one word character. */
  lemma NextTokenSpells(s: string, i: nat)
    requires i < |s|
    ensures Spell(NextToken(s, i).0) == s[i..NextToken(s, i).1]
    ensures WellFormedToken(NextToken(s, i).0)
  {
    var p := PlaceholderAt(s, i);
    if p.Some? {
      var end := p.value;
      var name := s[i + 2..end];
      assert NextToken(s, i) == (Param(name), end + 1);
      assert s[i..end + 1] == [s[i], s[i + 1]] + name + [s[end]];
      forall j | 0 <= j < |name| ensures IsWordChar(name[j]) {
        assert name[j] == s[i + 2 + j];
      }
    } else {
      assert NextToken(s, i) == (Lit(s[i]), i + 1);
    }
  }

  /** A match of PARAM_PATTERN at `i` whose `}` is at `e`. */
  predicate IsMatch(s: string, i: nat, e: nat) {
    && i + 3 <= e < |s|
    && s[i] == '#' && s[i + 1] == '{' && s[e] == '}'
    && forall j :: i + 2 <= j < e ==> IsWordChar(s[j])
  }

  /** `PlaceholderAt` finds exactly the matches: one is found at `i`,
      ending at `e`, if and only if there is a match there. */
  lemma PlaceholderAtExact(s: string, i: nat, e: nat)
    requires i <= |s|
    ensures PlaceholderAt(s, i) == Some(e) <==> IsMatch(s, i, e)
  {
    if IsMatch(s, i, e) {
      var n := WordRun(s, i + 2);
      assert !IsWordChar(s[e]);
      assert i + 2 + n == e;
    }
  }

  /** The tokens the scan starting at `p` reads before it reaches `i`. */
  function TokensBefore(s: string, p: nat, i: nat): seq<Token>
    requires p <= i <= |s|
    decreases i - p
  {
    if p == i then []
    else if NextToken(s, p).1 <= i then [NextToken(s, p).0] + TokensBefore(s, NextToken(s, p).1, i)
    else []
  }

  /** No token read before a match runs into it: a match starts with `#`,
      which is neither the `{` at the start of a placeholder, a word
      character inside one, nor its closing `}`. So the scan stops at the
      start of every match, having spelled the text before it. */
  lemma {:induction false} ScanReachesMatch(s: string, p: nat, i: nat, e: nat)
    requires p <= i && IsMatch(s, i, e)
    ensures TokenizeFrom(s, p) == TokensBefore(s, p, i) + TokenizeFrom(s, i)
    ensures Untokenize(TokensBefore(s, p, i)) == s[p..i]
    decreases i - p
  {
    if p < i {
      var t := NextToken(s, p);
      StopsBeforeMatch(s, p, i, e);
      ScanReachesMatch(s, t.1, i, e);
      var rest := TokensBefore(s, t.1, i);
      assert TokensBefore(s, p, i) == [t.0] + rest;
      TokensBeforeStep(s, p, i, rest, TokenizeFrom(s, i));
      SpellsBeforeStep(s, p, i, rest);
    } else {
      assert s[p..i] == [];
    }
  }

  /** One step of ScanReachesMatch for the tokens: the token at `p` heads
      both the scan and the tokens before the match. */
  lemma TokensBeforeStep(s: string, p: nat, i: nat, rest: seq<Token>, tail: seq<Token>)
    requires p < i <= |s| && NextToken(s, p).1 <= i
    requires TokenizeFrom(s, NextToken(s, p).1) == rest + tail
    ensures TokenizeFrom(s, p) == ([NextToken(s, p).0] + rest) + tail
  {
    var t := NextToken(s, p);
    assert TokenizeFrom(s, p) == [t.0] + TokenizeFrom(s, t.1);
    assert [t.0] + (rest + tail) == ([t.0] + rest) + tail;
  }

  /** One step of ScanReachesMatch for the text: the token at `p` spells
      the text up to where the scan resumes. */
  lemma SpellsBeforeStep(s: string, p: nat, i: nat, rest: seq<Token>)
    requires p < i <= |s| && NextToken(s, p).1 <= i
    requires Untokenize(rest) == s[NextToken(s, p).1..i]
    ensures Untokenize([NextToken(s, p).0] + rest) == s[p..i]
  {
    var t := NextToken(s, p);
    NextTokenSpells(s, p);
    assert ([t.0] + rest)[1..] == rest;
    SliceConcat(s, p, t.1, i);
  }

  /** A token read before a match ends no later than the match begins:
      a placeholder cannot run into the match's `#`. */
  lemma StopsBeforeMatch(s: string, p: nat, i: nat, e: nat)
    requires p < i && IsMatch(s, i, e)
    ensures NextToken(s, p).1 <= i
  {
    var m := PlaceholderAt(s, p);
    if m.Some? {
      assert s[i] == '#' && !IsWordChar('#');
    }
  }

  /** Every match of PARAM_PATTERN in a template is compiled: it is read
      as one placeholder right after the tokens that spell the text before
      it, so it becomes one `?` and adds its normalized name in its place
      among the names. */
  lemma MatchBecomesParam(sql: string, i: nat, e: nat)
    requires IsMatch(sql, i, e)
    ensures Tokenize(sql) == TokensBefore(sql, 0, i) + [Param(sql[i + 2..e])] + TokenizeFrom(sql, e + 1)
    ensures Untokenize(TokensBefore(sql, 0, i)) == sql[..i]
    ensures FormatQuery(sql).0 == SqlOf(TokensBefore(sql, 0, i)) + "?" + SqlOf(TokenizeFrom(sql, e + 1))
    ensures FormatQuery(sql).1 ==
              NamesOf(TokensBefore(sql, 0, i)) + [Normalize(sql[i + 2..e])] + NamesOf(TokenizeFrom(sql, e + 1))
  {
    MatchSplitsScan(sql, i, e);
    CompileAround(TokensBefore(sql, 0, i), Param(sql[i + 2..e]), TokenizeFrom(sql, e + 1));
  }

  /** MatchBecomesParam for the scan itself. */
  lemma MatchSplitsScan(sql: string, i: nat, e: nat)
    requires IsMatch(sql, i, e)
    ensures TokenizeFrom(sql, 0) == TokensBefore(sql, 0, i) + [Param(sql[i + 2..e])] + TokenizeFrom(sql, e + 1)
    ensures Untokenize(TokensBefore(sql, 0, i)) == sql[..i]
  {
    ScanReachesMatch(sql, 0, i, e);
    MatchIsToken(sql, i, e);
    assert sql[0..i] == sql[..i];
  }

  /** The scan reads a match as one placeholder token. */
  lemma MatchIsToken(sql: string, i: nat, e: nat)
    requires IsMatch(sql, i, e)
    ensures TokenizeFrom(sql, i) == [Param(sql[i + 2..e])] + TokenizeFrom(sql, e + 1)
  {
    PlaceholderAtExact(sql, i, e);
    assert NextToken(sql, i) == (Param(sql[i + 2..e]), e + 1);
  }

  /** Compiling a token between two others: its text and its names land
      between theirs. */
  lemma CompileAround(pre: seq<Token>, t: Token, rest: seq<Token>)
    ensures SqlOf(pre + [t] + rest) == SqlOf(pre) + SqlOfToken(t) + SqlOf(rest)
    ensures NamesOf(pre + [t] + rest) == NamesOf(pre) + NamesOfToken(t) + NamesOf(rest)
  {
    CompileAppend(pre + [t], rest);
    CompileAppend(pre, [t]);
    CompileOne(t);
  }

  /** A lone token compiles to its own text and names. */
  lemma CompileOne(t: Token)
    ensures SqlOf([t]) == SqlOfToken(t) && NamesOf([t]) == NamesOfToken(t)
  {
    assert [t][1..] == [];
  }

  /** Reading a template into tokens loses nothing, and every placeholder
      it finds names at least one word character. */
  lemma {:induction false} TokenizeFromSpells(s: string, i: nat)
    requires i <= |s|
    ensures Untokenize(TokenizeFrom(s, i)) == s[i..]
    ensures forall k :: 0 <= k < |TokenizeFrom(s, i)| ==> WellFormedToken(TokenizeFrom(s, i)[k])
    decreases |s| - i
  {
    if i < |s| {
      var t := NextToken(s, i);
      var rest := TokenizeFrom(s, t.1);
      TokenizeFromSpells(s, t.1);
      NextTokenSpells(s, i);
      assert TokenizeFrom(s, i) == [t.0] + rest;
      assert ([t.0] + rest)[1..] == rest;
      SliceSplit(s, i, t.1);
      forall k | 0 <= k < |[t.0] + rest| ensures WellFormedToken(([t.0] + rest)[k]) {
        if k > 0 {
          assert ([t.0] + rest)[k] == rest[k - 1];
        }
      }
    }
  }

  function CountChar(c: char, s: string): nat {
    if s == [] then 0 else (if s[0] == c then 1 else 0) + CountChar(c, s[1..])
  }

  lemma {:induction false} CountCharAppend(c: char, a: string, b: string)
    ensures CountChar(c, a + b) == CountChar(c, a) + CountChar(c, b)
    decreases |a|
  {
    if a == [] {
      assert a + b == b;
    } else {
      assert (a + b)[1..] == a[1..] + b;
      CountCharAppend(c, a[1..], b);
    }
  }

  lemma NoWordQuestionMark(name: string)
    requires forall j :: 0 <= j < |name| ==> IsWordChar(name[j])
    ensures CountChar('?', name) == 0
    decreases |name|
  {
    if name != [] {
      assert forall j :: 0 <= j < |name[1..]| ==> name[1..][j] == name[j + 1];
      NoWordQuestionMark(name[1..]);
    }
  }

  /** One `?` per placeholder: the SQL holds the template's own question
      marks plus one for each parameter name. */
  lemma {:induction false} QuestionMarksOf(ts: seq<Token>)
    requires forall k :: 0 <= k < |ts| ==> WellFormedToken(ts[k])
    ensures CountChar('?', SqlOf(ts)) == CountChar('?', Untokenize(ts)) + |NamesOf(ts)|
    decreases |ts|
  {
    if ts != [] {
      QuestionMarksOf(ts[1..]);
      var head := match ts[0] case Lit(c) => [c] case Param(_) => "?";
      CountCharAppend('?', head, SqlOf(ts[1..]));
      CountCharAppend('?', Spell(ts[0]), Untokenize(ts[1..]));
      match ts[0]
      case Lit(c) =>
      case Param(name) =>
        assert WellFormedToken(ts[0]);
        NoWordQuestionMark(name);
        CountCharAppend('?', "#{", name);
        CountCharAppend('?', "#{" + name, "}");
    }
  }

  /** A scan that finds no placeholder copies the text and names nothing. */
  lemma {:induction false} NoPlaceholderFrom(s: string, i: nat)
    requires i <= |s|
    requires forall j :: i <= j < |s| ==> PlaceholderAt(s, j) == None
    ensures SqlOf(TokenizeFrom(s, i)) == s[i..] && NamesOf(TokenizeFrom(s, i)) == []
    decreases |s| - i
  {
    if i < |s| {
      NoPlaceholderFrom(s, i + 1);
      assert NextToken(s, i) == (Lit(s[i]), i + 1);
      var ts := TokenizeFrom(s, i);
      assert ts == [Lit(s[i])] + TokenizeFrom(s, i + 1);
      assert ts[1..] == TokenizeFrom(s, i + 1);
      assert s[i..] == [s[i]] + s[i + 1..];
    }
  }

  /** A template without placeholders compiles to itself with no names. */
  lemma NoPlaceholder(sql: string)
    requires forall j :: 0 <= j < |sql| ==> PlaceholderAt(sql, j) == None
    ensures FormatQuery(sql) == (sql, [])
  {
    NoPlaceholderFrom(sql, 0);
    assert sql[0..] == sql;
  }

  lemma NoPlaceholderImplies(sql: string)
    ensures (forall j :: 0 <= j < |sql| ==> PlaceholderAt(sql, j) == None) ==> FormatQuery(sql) == (sql, [])
  {
    if forall j :: 0 <= j < |sql| ==> PlaceholderAt(sql, j) == None {
      NoPlaceholder(sql);
    }
  }

  /** `#{a.b}` does not match, because `.` is not a word character. */
  lemma DottedNameStaysVerbatim()
    ensures FormatQuery("#{a.b}") == ("#{a.b}", [])
  {
    var s := "#{a.b}";
    assert WordRun(s, 2) == 1 by {
      assert WordRun(s, 3) == 0;
    }
    forall j | 0 <= j < |s| ensures PlaceholderAt(s, j) == None {
      if j > 0 {
        assert s[j] != '#';
      }
    }
    NoPlaceholder(s);
  }

  lemma TokenizeWhereClause()
    ensures Tokenize("id=#{EMP_ID}") == [Lit('i'), Lit('d'), Lit('='), Param("EMP_ID")]
  {
    var s := "id=#{EMP_ID}";
    assert WordRun(s, 5) == 6 by {
      assert WordRun(s, 11) == 0;
    }
    assert PlaceholderAt(s, 3) == Some(11);
    assert s[5..11] == "EMP_ID";
    assert NextToken(s, 3) == (Param("EMP_ID"), 12);
    assert TokenizeFrom(s, 12) == [];
    assert TokenizeFrom(s, 3) == [Param("EMP_ID")];
    assert NextToken(s, 2) == (Lit('='), 3);
    assert TokenizeFrom(s, 2) == [Lit('='), Param("EMP_ID")];
    assert NextToken(s, 1) == (Lit('d'), 2);
    assert TokenizeFrom(s, 1) == [Lit('d'), Lit('='), Param("EMP_ID")];
    assert NextToken(s, 0) == (Lit('i'), 1);
  }

  lemma NormalizeEmpId()
    ensures Normalize("EMP_ID") == "empid"
  {
    var n := "EMP_ID";
    assert Normalize(n[6..]) == [];
    NormalizeStep(n, 5);
    NormalizeStep(n, 4);
    NormalizeStep(n, 3);
    NormalizeStep(n, 2);
    NormalizeStep(n, 1);
    NormalizeStep(n, 0);
    assert n[0..] == n;
  }

  lemma CompileWhereClause()
    ensures SqlOf([Lit('i'), Lit('d'), Lit('='), Param("EMP_ID")]) == "id=?"
    ensures NamesOf([Lit('i'), Lit('d'), Lit('='), Param("EMP_ID")]) == ["empid"]
  {
    NormalizeEmpId();
    var ts := [Lit('i'), Lit('d'), Lit('='), Param("EMP_ID")];
    assert ts[3..] == [Param("EMP_ID")];
    assert SqlOf(ts[3..]) == "?";
    assert SqlOf(ts[2..]) == "=?";
    assert SqlOf(ts[1..]) == "d=?";
    assert NamesOf(ts[3..]) == ["empid"];
    assert NamesOf(ts[2..]) == ["empid"];
    assert NamesOf(ts[1..]) == ["empid"];
  }

  /** A placeholder in a `WHERE` clause becomes `?` named by its field. */
  lemma WhereClauseExample()
    ensures FormatQuery("id=#{EMP_ID}") == ("id=?", ["empid"])
  {
    TokenizeWhereClause();
    CompileWhereClause();
  }

  /** Compiling tokens works token by token. */
  lemma {:induction false} CompileAppend(a: seq<Token>, b: seq<Token>)
    ensures SqlOf(a + b) == SqlOf(a) + SqlOf(b)
    ensures NamesOf(a + b) == NamesOf(a) + NamesOf(b)
    decreases |a|
  {
    if a == [] {
      assert a + b == b;
    } else {
      assert (a + b)[0] == a[0];
      assert (a + b)[1..] == a[1..] + b;
      CompileAppend(a[1..], b);
    }
  }

  /** The text and the name a token compiles to. */
  function SqlOfToken(t: Token): string {
    match t case Lit(c) => [c] case Param(_) => "?"
  }

  function NamesOfToken(t: Token): seq<string> {
    match t case Lit(_) => [] case Param(name) => [Normalize(name)]
  }

  /** One step of the scan: the token at `i` moves from the part still to
      read to the part compiled. */
  lemma ScanStep(s: string, i: nat, done: seq<Token>)
    requires i < |s|
    ensures done + TokenizeFrom(s, i) == (done + [NextToken(s, i).0]) + TokenizeFrom(s, NextToken(s, i).1)
    ensures SqlOf(done + [NextToken(s, i).0]) == SqlOf(done) + SqlOfToken(NextToken(s, i).0)
    ensures NamesOf(done + [NextToken(s, i).0]) == NamesOf(done) + NamesOfToken(NextToken(s, i).0)
  {
    var t := NextToken(s, i).0;
    var rest := TokenizeFrom(s, NextToken(s, i).1);
    assert TokenizeFrom(s, i) == [t] + rest;
    assert done + ([t] + rest) == (done + [t]) + rest;
    CompileAppend(done, [t]);
    assert [t][1..] == [];
  }

  /** `formatQuery` as the matcher runs it: the text goes to the output
      piece by piece while the lambda appends each name to `fNames`. */
  method FormatQueryScan(sql: string) returns (text: string, fNames: seq<string>)
    ensures (text, fNames) == FormatQuery(sql)
  {
    text, fNames := [], [];
    ghost var done: seq<Token> := [];
    var i := 0;
    while i < |sql|
      invariant 0 <= i <= |sql|
      invariant TokenizeFrom(sql, 0) == done + TokenizeFrom(sql, i)
      invariant text == SqlOf(done) && fNames == NamesOf(done)
      decreases |sql| - i
    {
      ScanStep(sql, i, done);
      var piece, names, next := ScanToken(sql, i);
      done := done + [NextToken(sql, i).0];
      text, fNames, i := text + piece, fNames + names, next;
    }
    assert done + TokenizeFrom(sql, i) == done;
  }

  /** One step of the matcher at `i`: a match is replaced by `?` and its
      normalized name is collected; any other character is copied. */
  method ScanToken(sql: string, i: nat) returns (piece: string, names: seq<string>, next: nat)
    requires i < |sql|
    ensures piece == SqlOfToken(NextToken(sql, i).0)
    ensures names == NamesOfToken(NextToken(sql, i).0)
    ensures next == NextToken(sql, i).1
  {
    var m := PlaceholderAt(sql, i);
    if m.Some? {
      var fName := GetNormalizedFieldName(sql[i + 2..m.value]);
      piece, names, next := "?", [fName], m.value + 1;
    } else {
      piece, names, next := [sql[i]], [], i + 1;
    }
  }

  // ---------------------------------------------------------------------
  // Mapped statements

  /** What the query subclasses add: a select's result type is either
      `List` or another class, and whether it is cached; a write may flush
      the namespace's caches. */
  datatype QueryKind =
    | Select(resultIsList: bool, useCaching: bool)
    | Insert(flushCache: bool)
    | Update(flushCache: bool)
    | Delete(flushCache: bool)

  datatype Query = Query(id: string, kind: QueryKind, sql: string, paramNames: seq<string>)

  /** The `Query` constructor compiles the template it is given. */
  function MakeQuery(kind: QueryKind, id: string, template: string): (q: Query)
    ensures q.id == id && q.kind == kind
    ensures CountChar('?', q.sql) == CountChar('?', template) + |q.paramNames|
    ensures (forall j :: 0 <= j < |template| ==> PlaceholderAt(template, j) == None) ==>
              q.sql == template && q.paramNames == []
  {
    NoPlaceholderImplies(template);
    Query(id, kind, FormatQuery(template).0, FormatQuery(template).1)
  }
}
