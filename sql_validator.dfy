/** The read-only guard of the query service, `validate_read_only_sql`
    (main.py:45-71): comments are removed, the text is cut at every `;`,
    blank pieces are dropped, and every remaining statement must start with
    `SELECT`, `WITH` or `USE` in any letter case. The first statement that
    does not is reported; no statement at all is reported too. Both are
    HTTP status 400.

    The source removes block comments before line comments, so a block
    comment opener inside a line comment swallows the following lines (see
    StripCommentsAsWritten and CommentOrderHidesStatement). ValidateOnePass
    is the same guard with both kinds of comment removed in one
    left-to-right pass, the way SQL reads them. */
module ReadOnlySql {
  import opened Text
  import opened Values

  // ---------------------------------------------------------------------
  // Characters

  /** Python's `str.isspace`, the separator of `strip()` and `split()`. */
  predicate IsSpace(c: char)
  {
    || c == ' ' || '\t' <= c <= '\r' || '\U{1C}' <= c <= '\U{1F}'
    || c == '\U{85}' || c == '\U{A0}' || c == '\U{1680}'
    || '\U{2000}' <= c <= '\U{200A}' || c == '\U{2028}' || c == '\U{2029}'
    || c == '\U{202F}' || c == '\U{205F}' || c == '\U{3000}'
  }

  /** `upper()` on ASCII letters; every other character is unchanged. */
  function UpperChar(c: char): (u: char)
    ensures 'a' <= c <= 'z' ==> 'A' <= u <= 'Z' && u as int == c as int - 32
    ensures !('a' <= c <= 'z') ==> u == c
    ensures IsSpace(u) == IsSpace(c)
  {
    if 'a' <= c <= 'z' then (c as int - 32) as char else c
  }

  function UpperAll(s: string): (t: string)
    ensures |t| == |s| && forall i :: 0 <= i < |s| ==> t[i] == UpperChar(s[i])
  {
    seq(|s|, i requires 0 <= i < |s| => UpperChar(s[i]))
  }

  // ---------------------------------------------------------------------
  // Comments

  predicate IsClose(s: string, m: nat)
  {
    m + 1 < |s| && s[m] == '*' && s[m + 1] == '/'
  }

  // The first `*/` starting at or after `from`: the end of the shortest
  // match of `/\*.*?\*/` (with `.` matching line breaks too).
  function CloseAt(s: string, from: nat): (j: Option<nat>)
    ensures j.Some? ==> from <= j.value && IsClose(s, j.value)
    ensures j.Some? ==> forall m :: from <= m < j.value ==> !IsClose(s, m)
    ensures j.None? ==> forall m :: from <= m ==> !IsClose(s, m)
    decreases |s| - from
  {
    if from + 1 >= |s| then None
    else if IsClose(s, from) then Some(from)
    else CloseAt(s, from + 1)
  }

  /** Where the line holding position `from` ends: the first line feed at
      or after `from`, or the end of the text. `--.*` stops there, since
      `.` does not match a line feed. */
  function LineEnd(s: string, from: nat): (e: nat)
    requires from <= |s|
    ensures from <= e <= |s|
    ensures forall m :: from <= m < e ==> s[m] != '\n'
    ensures e < |s| ==> s[e] == '\n'
    decreases |s| - from
  {
    if from == |s| || s[from] == '\n' then from else LineEnd(s, from + 1)
  }

  // `re.sub(r'/\*.*?\*/', '', s, flags=re.DOTALL)`: at each position, the
  // shortest comment starting there is dropped, else one character is kept.
  function StripBlockComments(s: string): string
    decreases |s|
  {
    if |s| >= 2 && s[0] == '/' && s[1] == '*' && CloseAt(s, 2).Some? then
      StripBlockComments(s[CloseAt(s, 2).value + 2..])
    else if s == [] then []
    else [s[0]] + StripBlockComments(s[1..])
  }

  /** `re.sub(r'--.*', '', s)`: the line feed ending a comment stays. */
  function StripLineComments(s: string): string
    decreases |s|
  {
    if |s| >= 2 && s[0] == '-' && s[1] == '-' then StripLineComments(s[LineEnd(s, 2)..])
    else if s == [] then []
    else [s[0]] + StripLineComments(s[1..])
  }

  /** The comment removal as main.py:51-53 writes it: block comments first,
      then line comments in what is left. */
  function StripCommentsAsWritten(sql: string): string
  {
    StripLineComments(StripBlockComments(sql))
  }

  // Comment removal in one pass: whichever of `--` and `/*` comes first
  // opens a comment; an unclosed `/*` is kept as text, as in the source.
  function StripComments(s: string): string
    decreases |s|
  {
    if |s| >= 2 && s[0] == '-' && s[1] == '-' then StripComments(s[LineEnd(s, 2)..])
    else if |s| >= 2 && s[0] == '/' && s[1] == '*' && CloseAt(s, 2).Some? then
      StripComments(s[CloseAt(s, 2).value + 2..])
    else if s == [] then []
    else [s[0]] + StripComments(s[1..])
  }

  // ---------------------------------------------------------------------
  // Statements

  /** `s.split(sep)`: the pieces between separators, empty ones included. */
  function Split(s: string, sep: char): (parts: seq<string>)
    ensures |parts| >= 1
    ensures forall i :: 0 <= i < |parts| ==> sep !in parts[i]
    decreases |s|
  {
    if s == [] then [""]
    else if s[0] == sep then [""] + Split(s[1..], sep)
    else
      var rest := Split(s[1..], sep);
      [[s[0]] + rest[0]] + rest[1..]
  }

  function TrimStart(s: string): (t: string)
    ensures |t| <= |s| && t == s[|s| - |t|..]
    ensures t == [] || !IsSpace(t[0])
    ensures forall m :: 0 <= m < |s| - |t| ==> IsSpace(s[m])
    decreases |s|
  {
    if s != [] && IsSpace(s[0]) then TrimStart(s[1..]) else s
  }

  function TrimEnd(s: string): (t: string)
    ensures |t| <= |s| && t == s[..|t|]
    ensures t == [] || !IsSpace(t[|t| - 1])
    ensures forall m :: |t| <= m < |s| ==> IsSpace(s[m])
    decreases |s|
  {
    if s != [] && IsSpace(s[|s| - 1]) then TrimEnd(s[..|s| - 1]) else s
  }

  /** `t` is the slice of `s` from `a`, with only white space around it. */
  predicate Trimmed(s: string, a: nat, t: string)
  {
    && a + |t| <= |s| && s[a..a + |t|] == t
    && (forall m :: 0 <= m < a ==> IsSpace(s[m]))
    && (forall m :: a + |t| <= m < |s| ==> IsSpace(s[m]))
  }

  /** `s.strip()`: the text between the white space at either end (see
      StripTrimmed). */
  function Strip(s: string): (t: string)
    ensures t == [] || (!IsSpace(t[0]) && !IsSpace(t[|t| - 1]))
  {
    TrimEnd(TrimStart(s))
  }

  /** Stripping removes white space at either end and nothing else: what
      is left is a slice of the text with only white space around it, and
      nothing is left exactly when the text is all white space. */
  lemma StripTrimmed(s: string)
    ensures exists a :: Trimmed(s, a, Strip(s))
    ensures Strip(s) == [] <==> forall m :: 0 <= m < |s| ==> IsSpace(s[m])
  {
    var u := TrimStart(s);
    var t := TrimEnd(u);
    assert t == Strip(s);
    if t == [] {
      assert u == [];
    }
    assert s[|s| - |u|..][..|t|] == t;
    assert Trimmed(s, |s| - |u|, Strip(s));
  }

  /** No piece holds anything but white space. */
  predicate AllBlank(parts: seq<string>)
  {
    forall k :: 0 <= k < |parts| ==> Strip(parts[k]) == []
  }

  /** Every statement is the non-blank stripped text of some piece. */
  predicate FromPieces(parts: seq<string>, stmts: seq<string>)
  {
    forall i :: 0 <= i < |stmts| ==> stmts[i] != [] && exists k :: 0 <= k < |parts| && stmts[i] == Strip(parts[k])
  }

  /** Every piece that is not blank gives a statement. */
  predicate CoversPieces(parts: seq<string>, stmts: seq<string>)
  {
    forall k :: 0 <= k < |parts| && Strip(parts[k]) != [] ==> Strip(parts[k]) in stmts
  }

  /** `[s.strip() for s in parts if s.strip()]`. StatementsCharacterised
      states which pieces it keeps, StatementsAppend that it keeps their
      order. */
  function Statements(parts: seq<string>): (stmts: seq<string>)
    ensures |stmts| <= |parts|
    ensures forall i :: 0 <= i < |stmts| ==> stmts[i] != [] && !IsSpace(stmts[i][0])
    decreases |parts|
  {
    if parts == [] then [] else Kept(parts[0]) + Statements(parts[1..])
  }

  /** The statement one piece gives: its stripped text, unless blank. */
  function Kept(x: string): seq<string>
  {
    var t := Strip(x);
    if t == [] then [] else [t]
  }

  lemma StatementsCons(x: string, ps: seq<string>)
    ensures Statements([x] + ps) == Kept(x) + Statements(ps)
  {
    ConsParts(x, ps);
  }

  lemma ConsParts<T>(x: T, ps: seq<T>)
    ensures [x] + ps != [] && ([x] + ps)[0] == x && ([x] + ps)[1..] == ps
  {
  }

  lemma PairParts<T>(x: T, y: T)
    ensures [x, y] == [x] + [y]
  {
  }

  lemma TailIndex<T>(p: seq<T>)
    requires p != []
    ensures forall k :: 1 <= k < |p| ==> p[k] == p[1..][k - 1]
  {
  }

  /** Statements are kept in the order of the pieces they come from. */
  lemma {:induction false} StatementsAppend(p: seq<string>, q: seq<string>)
    ensures Statements(p + q) == Statements(p) + Statements(q)
    decreases |p|
  {
    if p == [] {
      assert p + q == q;
    } else {
      StatementsAppend(p[1..], q);
      AppendStep(p, q);
    }
  }

  lemma AppendStep(p: seq<string>, q: seq<string>)
    requires p != []
    requires Statements(p[1..] + q) == Statements(p[1..]) + Statements(q)
    ensures Statements(p + q) == Statements(p) + Statements(q)
  {
    var x := p[0];
    var r := p[1..];
    ConsSplit(p, q);
    StatementsCons(x, r);
    StatementsCons(x, r + q);
    HeadRegroup(Kept(x), Statements(r), Statements(q));
  }

  lemma HeadRegroup<T>(h: seq<T>, a: seq<T>, b: seq<T>)
    ensures h + (a + b) == (h + a) + b
  {
  }

  lemma ConsSplit<T>(p: seq<T>, q: seq<T>)
    requires p != []
    ensures p == [p[0]] + p[1..] && p + q == [p[0]] + (p[1..] + q)
  {
  }

  /** Every statement is the stripped text of a piece, every piece that is
      not blank gives a statement, and there are no statements exactly when
      every piece is blank. */
  lemma StatementsCharacterised(parts: seq<string>)
    ensures Statements(parts) == [] <==> AllBlank(parts)
    ensures FromPieces(parts, Statements(parts)) && CoversPieces(parts, Statements(parts))
  {
    StatementsBlank(parts);
    StatementsFromPieces(parts);
    StatementsCoverPieces(parts);
  }

  lemma {:induction false} StatementsBlank(parts: seq<string>)
    ensures Statements(parts) == [] <==> AllBlank(parts)
    decreases |parts|
  {
    if parts != [] {
      StatementsBlank(parts[1..]);
      BlankStep(parts);
    }
  }

  lemma BlankStep(parts: seq<string>)
    requires parts != []
    requires Statements(parts[1..]) == [] <==> AllBlank(parts[1..])
    ensures Statements(parts) == [] <==> AllBlank(parts)
  {
    var tail := parts[1..];
    if AllBlank(parts) {
      forall k | 0 <= k < |tail| ensures Strip(tail[k]) == [] {
        assert tail[k] == parts[k + 1];
      }
    }
    if Strip(parts[0]) == [] && AllBlank(tail) {
      forall k | 0 <= k < |parts| ensures Strip(parts[k]) == [] {
        if k > 0 { assert parts[k] == tail[k - 1]; }
      }
    }
    assert Statements(parts) == Kept(parts[0]) + Statements(tail);
  }

  lemma {:induction false} StatementsFromPieces(parts: seq<string>)
    ensures FromPieces(parts, Statements(parts))
    decreases |parts|
  {
    if parts != [] {
      StatementsFromPieces(parts[1..]);
      FromPiecesStep(parts, Statements(parts[1..]));
      assert Statements(parts) == Kept(parts[0]) + Statements(parts[1..]);
    }
  }

  lemma FromPiecesStep(parts: seq<string>, rest: seq<string>)
    requires parts != [] && FromPieces(parts[1..], rest)
    ensures FromPieces(parts, Kept(parts[0]) + rest)
  {
    var tail := parts[1..];
    var head := Kept(parts[0]);
    TailIndex(parts);
    forall i | 0 <= i < |head + rest|
      ensures (head + rest)[i] != [] && exists k :: 0 <= k < |parts| && (head + rest)[i] == Strip(parts[k])
    {
      if i < |head| {
        assert (head + rest)[i] == Strip(parts[0]);
      } else {
        var k :| 0 <= k < |tail| && rest[i - |head|] == Strip(tail[k]);
        assert (head + rest)[i] == Strip(parts[k + 1]);
      }
    }
  }

  lemma {:induction false} StatementsCoverPieces(parts: seq<string>)
    ensures CoversPieces(parts, Statements(parts))
    decreases |parts|
  {
    if parts != [] {
      StatementsCoverPieces(parts[1..]);
      CoverStep(parts, Statements(parts[1..]));
      assert Statements(parts) == Kept(parts[0]) + Statements(parts[1..]);
    }
  }

  lemma CoverStep(parts: seq<string>, rest: seq<string>)
    requires parts != [] && CoversPieces(parts[1..], rest)
    ensures CoversPieces(parts, Kept(parts[0]) + rest)
  {
    TailIndex(parts);
    forall k | 0 <= k < |parts| && Strip(parts[k]) != []
      ensures Strip(parts[k]) in Kept(parts[0]) + rest
    {
      if k > 0 {
        assert parts[k] == parts[1..][k - 1];
      }
    }
  }

  /** A single piece gives its stripped text, unless that is blank. */
  lemma StatementsOfOne(x: string)
    ensures Statements([x]) == if Strip(x) == [] then [] else [Strip(x)]
  {
    assert [x][1..] == [];
  }

  /** `statement.split()[0]` on a stripped statement: the characters up to
      the first white space. */
  function FirstWord(s: string): (w: string)
    ensures |w| <= |s| && w == s[..|w|]
    ensures forall m :: 0 <= m < |w| ==> !IsSpace(w[m])
    ensures |w| < |s| ==> IsSpace(s[|w|])
    decreases |s|
  {
    if s == [] || IsSpace(s[0]) then [] else [s[0]] + FirstWord(s[1..])
  }

  /** `first_word = statement.split()[0].upper()`. */
  function Starter(statement: string): string
  {
    UpperAll(FirstWord(statement))
  }

  const ALLOWED_STARTERS: seq<string> := ["SELECT", "WITH", "USE"]

  // ---------------------------------------------------------------------
  // Verdicts

  datatype Rejection = EmptyStatement | NotReadOnly(word: string)

  datatype Verdict = ReadOnly | Rejected(status: int, reason: Rejection)

  /** The `detail` of the HTTP error. The message names only SELECT and
      WITH although USE is accepted too. */
  function Detail(r: Rejection): string
  {
    match r
    case EmptyStatement => "SQL 語句不可為空。"
    case NotReadOnly(w) => "僅允許執行唯讀查詢 (SELECT 或 WITH 開頭)。偵測到不被允許的指令 '" + w + "'。"
  }

  /** The loop over the statements: the first one whose starter is not
      allowed is reported. */
  function Judge(stmts: seq<string>): Verdict
    decreases |stmts|
  {
    if stmts == [] then ReadOnly
    else if Starter(stmts[0]) !in ALLOWED_STARTERS then Rejected(400, NotReadOnly(Starter(stmts[0])))
    else Judge(stmts[1..])
  }

  function VerdictOn(text: string): Verdict
  {
    var stmts := Statements(Split(text, ';'));
    if stmts == [] then Rejected(400, EmptyStatement) else Judge(stmts)
  }

  /** What a verdict `v` on the statements `stmts` promises: no statements
      are refused as empty; otherwise the text passes exactly when every
      statement starts with an allowed word, and every other refusal names
      the upper-cased starter of the first statement that does not; every
      refusal has status 400. */
  predicate Explains(stmts: seq<string>, v: Verdict)
  {
    && (v == Rejected(400, EmptyStatement) <==> stmts == [])
    && (v == ReadOnly <==> stmts != [] && forall i :: 0 <= i < |stmts| ==> Starter(stmts[i]) in ALLOWED_STARTERS)
    && (v.Rejected? ==> v.status == 400)
    && (v.Rejected? && v.reason.NotReadOnly? ==> forall m :: 0 <= m < |v.reason.word| ==> !('a' <= v.reason.word[m] <= 'z'))
    && (v.Rejected? && v.reason.NotReadOnly? ==>
          exists k :: 0 <= k < |stmts|
            && v.reason.word == Starter(stmts[k])
            && v.reason.word !in ALLOWED_STARTERS
            && forall i :: 0 <= i < k ==> Starter(stmts[i]) in ALLOWED_STARTERS)
  }

  /** `validate_read_only_sql(sql)` as main.py:45-71 writes it: block
      comments are removed first, line comments second, and the verdict is
      taken on the statements that remain. */
  function ValidateReadOnlySql(sql: string): (v: Verdict)
    ensures Explains(Statements(Split(StripCommentsAsWritten(sql), ';')), v)
  {
    VerdictExplained(StripCommentsAsWritten(sql));
    VerdictOn(StripCommentsAsWritten(sql))
  }

  /** The same guard with both kinds of comment removed in one pass. */
  function ValidateOnePass(sql: string): (v: Verdict)
    ensures Explains(Statements(Split(StripComments(sql), ';')), v)
  {
    VerdictExplained(StripComments(sql));
    VerdictOn(StripComments(sql))
  }

  /** What `/execute-query` does with the text (main.py:139-147): a refused
      text never reaches the database; an accepted one is sent unchanged,
      comments included. */
  datatype Outcome = Refused(status: int, detail: string) | Forwarded(sql: string)

  function ExecuteQuery(sql: string): (o: Outcome)
    ensures o.Forwarded? <==> ValidateReadOnlySql(sql) == ReadOnly
    ensures o.Forwarded? ==> o.sql == sql
    ensures o.Refused? ==> o.status == 400 && o.detail == Detail(ValidateReadOnlySql(sql).reason)
  {
    var v := ValidateReadOnlySql(sql);
    if v.ReadOnly? then Forwarded(sql) else Refused(v.status, Detail(v.reason))
  }

  // ---------------------------------------------------------------------
  // What the verdict means

  /** A list of statements passes exactly when every statement starts with
      an allowed word; otherwise the first statement that does not is the
      one reported, with its starter. */
  lemma {:induction false} JudgeCharacterised(stmts: seq<string>)
    ensures Judge(stmts) == ReadOnly <==> forall i :: 0 <= i < |stmts| ==> Starter(stmts[i]) in ALLOWED_STARTERS
    ensures Judge(stmts).Rejected? ==>
      && Judge(stmts).status == 400
      && Judge(stmts).reason.NotReadOnly?
      && exists k :: 0 <= k < |stmts|
           && Judge(stmts).reason.word == Starter(stmts[k])
           && Starter(stmts[k]) !in ALLOWED_STARTERS
           && forall i :: 0 <= i < k ==> Starter(stmts[i]) in ALLOWED_STARTERS
    decreases |stmts|
  {
    if stmts != [] && Starter(stmts[0]) in ALLOWED_STARTERS {
      var tail := stmts[1..];
      JudgeCharacterised(tail);
      assert forall i :: 1 <= i < |stmts| ==> stmts[i] == tail[i - 1];
      if Judge(tail).Rejected? {
        var k :| 0 <= k < |tail|
          && Judge(tail).reason.word == Starter(tail[k])
          && Starter(tail[k]) !in ALLOWED_STARTERS
          && forall i :: 0 <= i < k ==> Starter(tail[i]) in ALLOWED_STARTERS;
        assert stmts[k + 1] == tail[k];
        assert forall i :: 0 <= i < k + 1 ==> Starter(stmts[i]) in ALLOWED_STARTERS by {
          forall i | 0 <= i < k + 1 ensures Starter(stmts[i]) in ALLOWED_STARTERS {
            if i > 0 { assert stmts[i] == tail[i - 1]; }
          }
        }
      } else {
        forall i | 0 <= i < |stmts| ensures Starter(stmts[i]) in ALLOWED_STARTERS {
          if i > 0 { assert stmts[i] == tail[i - 1]; }
        }
      }
    }
  }

  /** The verdict on a text after comment removal explains itself. */
  lemma VerdictExplained(text: string)
    ensures Explains(Statements(Split(text, ';')), VerdictOn(text))
  {
    JudgeCharacterised(Statements(Split(text, ';')));
  }

  // ---------------------------------------------------------------------
  // Comments, as SQL reads them

  /** Text without `-` or `/` opens no comment. */
  predicate Plain(p: string)
  {
    forall m :: 0 <= m < |p| ==> p[m] != '-' && p[m] != '/'
  }

  lemma {:induction false} PlainPrefix(p: string, s: string)
    requires Plain(p)
    ensures StripComments(p + s) == p + StripComments(s)
    decreases |p|
  {
    if p != [] {
      var t := p + s;
      assert t[0] == p[0] && t[1..] == p[1..] + s;
      assert t[0] != '-' && t[0] != '/';
      assert StripComments(t) == [p[0]] + StripComments(p[1..] + s);
      PlainPrefix(p[1..], s);
      ConcatAssoc([p[0]], p[1..], StripComments(s));
      assert [p[0]] + p[1..] == p;
    } else {
      assert p + s == s && p + StripComments(s) == StripComments(s);
    }
  }

  lemma {:induction false} PlainPrefixAsWritten(p: string, s: string)
    requires Plain(p)
    ensures StripBlockComments(p + s) == p + StripBlockComments(s)
    ensures StripLineComments(p + s) == p + StripLineComments(s)
    decreases |p|
  {
    if p != [] {
      var t := p + s;
      assert t[0] == p[0] && t[1..] == p[1..] + s;
      assert t[0] != '-' && t[0] != '/';
      assert StripBlockComments(t) == [p[0]] + StripBlockComments(p[1..] + s);
      assert StripLineComments(t) == [p[0]] + StripLineComments(p[1..] + s);
      PlainPrefixAsWritten(p[1..], s);
      ConcatAssoc([p[0]], p[1..], StripBlockComments(s));
      ConcatAssoc([p[0]], p[1..], StripLineComments(s));
      assert [p[0]] + p[1..] == p;
    } else {
      assert p + s == s;
      assert p + StripBlockComments(s) == StripBlockComments(s);
      assert p + StripLineComments(s) == StripLineComments(s);
    }
  }

  /** A line comment hides the rest of its line and nothing more, whatever
      it contains. */
  lemma LineCommentHidesOnlyItsLine(c: string, q: string)
    requires '\n' !in c
    ensures StripComments("--" + c + "\n" + q) == "\n" + StripComments(q)
    ensures StripComments("--" + c) == ""
  {
    var s := "--" + c + "\n" + q;
    assert s[2..] == c + "\n" + q;
    assert s[2 + |c|] == '\n';
    var e := LineEnd(s, 2);
    assert e == 2 + |c|;
    var rest := s[e..];
    assert rest == "\n" + q;
    assert rest[1..] == q;
    var t := "--" + c;
    assert LineEnd(t, 2) == |t|;
  }

  /** A block comment is dropped whatever it contains, up to its first
      closing mark. */
  lemma BlockCommentDropped(c: string, q: string)
    requires forall m :: 0 <= m < |c| ==> !IsClose(c + "*/", m)
    ensures StripComments("/*" + c + "*/" + q) == StripComments(q)
    ensures StripBlockComments("/*" + c + "*/" + q) == StripBlockComments(q)
  {
    var cc := c + "*/";
    var s := "/*" + cc + q;
    assert s == "/*" + c + "*/" + q;
    forall m | 2 <= m < 2 + |c| ensures !IsClose(s, m) {
      assert s[m] == cc[m - 2] && s[m + 1] == cc[m - 1];
      assert !IsClose(cc, m - 2);
    }
    assert s[2 + |c|] == '*' && s[3 + |c|] == '/';
    assert IsClose(s, 2 + |c|);
    assert CloseAt(s, 2) == Some(2 + |c|);
    assert s[2 + |c| + 2..] == q;
  }

  /** The source's line comment pass alone also hides the rest of a line
      and nothing more. */
  lemma LineCommentDroppedAsWritten(c: string, q: string)
    requires '\n' !in c
    ensures StripLineComments("--" + c + "\n" + q) == "\n" + StripLineComments(q)
    ensures StripLineComments("--" + c) == ""
  {
    var s := "--" + c + "\n" + q;
    assert s[2 + |c|] == '\n';
    assert LineEnd(s, 2) == 2 + |c|;
    var rest := s[2 + |c|..];
    assert rest == "\n" + q;
    assert rest[1..] == q;
    var t := "--" + c;
    assert LineEnd(t, 2) == |t|;
  }

  /** The first word ends only at white space, so a keyword glued to
      punctuation is not that keyword: `SELECT*FROM t` is refused. */
  lemma GluedKeywordRefused()
    ensures ValidateReadOnlySql("SELECT*FROM t") == Rejected(400, NotReadOnly("SELECT*FROM"))
    ensures ValidateOnePass("SELECT*FROM t") == Rejected(400, NotReadOnly("SELECT*FROM"))
  {
    GluedPlain("SELECT*FROM t");
    GluedVerdict();
  }

  lemma GluedVerdict()
    ensures VerdictOn("SELECT*FROM t") == Rejected(400, NotReadOnly("SELECT*FROM"))
  {
    var text := "SELECT*FROM t";
    assert Statements(Split(text, ';')) == [text] by {
      GluedStatements(text);
    }
    assert Judge([text]) == Rejected(400, NotReadOnly("SELECT*FROM")) by {
      GluedJudged(text);
    }
  }

  lemma GluedPlain(text: string)
    requires text == "SELECT*FROM t"
    ensures StripComments(text) == text
    ensures StripCommentsAsWritten(text) == text
  {
    assert Plain(text);
    PlainPrefix(text, "");
    PlainPrefixAsWritten(text, "");
    assert text + "" == text;
  }

  lemma GluedStatements(text: string)
    requires text == "SELECT*FROM t"
    ensures Statements(Split(text, ';')) == [text]
  {
    GluedSplit();
    StripKeeps(text);
    assert [text][1..] == [];
  }

  lemma GluedJudged(text: string)
    requires text == "SELECT*FROM t"
    ensures Judge([text]) == Rejected(400, NotReadOnly("SELECT*FROM"))
  {
    GluedStarter();
    assert "SELECT*FROM" !in ALLOWED_STARTERS;
  }

  lemma GluedSplit()
    ensures Split("SELECT*FROM t", ';') == ["SELECT*FROM t"]
  {
    SplitWithout("SELECT*FROM t", ';');
  }

  lemma GluedStarter()
    ensures Starter("SELECT*FROM t") == "SELECT*FROM"
  {
    var w := "SELECT*FROM";
    var r := " t";
    assert forall m :: 0 <= m < |w| ==> !IsSpace(w[m]);
    FirstWordAt(w, r);
    assert w + r == "SELECT*FROM t";
    UpperKeeps(w);
  }

  /** The source's order of removal, shown on one text: the block comment
      opener inside the line comment of the first line opens a block
      comment reaching into the second line, so the second statement
      disappears and the text is let through, although its second
      statement drops a table. */
  lemma CommentOrderHidesStatement()
    ensures ValidateReadOnlySql(HIDING_SQL) == ReadOnly
    ensures ExecuteQuery(HIDING_SQL) == Forwarded(HIDING_SQL)
  {
    AsWrittenBlockPass();
    AsWrittenLinePass();
    SelectOneReadOnly();
  }

  /** A first line that comments out a block comment opener, and a second
      line that drops a table. */
  const HIDING_SQL := "SELECT 1--/*\n;DROP TABLE t--*/"

  lemma AsWrittenBlockPass()
    ensures StripBlockComments(HIDING_SQL) == "SELECT 1" + "--"
  {
    var a := "SELECT 1";
    var body := "\n;DROP TABLE t--";
    var tail := "/*" + body + "*/" + "";
    HidingPiecesAsWritten(a, body, tail);
    assert forall m :: 0 <= m < |body| ==> !IsClose(body + "*/", m);
    BlockCommentDropped(body, "");
    LineOpenerKept(tail);
    SelectOnePlain();
    PlainPrefixAsWritten(a, "--" + tail);
  }

  lemma HidingPiecesAsWritten(a: string, body: string, tail: string)
    requires a == "SELECT 1" && body == "\n;DROP TABLE t--" && tail == "/*" + body + "*/" + ""
    ensures HIDING_SQL == a + ("--" + tail)
  {
  }

  lemma AsWrittenLinePass()
    ensures StripLineComments("SELECT 1" + "--") == "SELECT 1"
  {
    SelectOnePlain();
    PlainPrefixAsWritten("SELECT 1", "--");
    assert StripLineComments("--") == "";
  }

  /** Block comment removal keeps a line comment opener as text. */
  lemma LineOpenerKept(tail: string)
    requires tail != [] && tail[0] == '/'
    ensures StripBlockComments("--" + tail) == "--" + StripBlockComments(tail)
  {
    var u := "--" + tail;
    assert u[1..] == "-" + tail;
    assert u[1..][1..] == tail;
  }

  lemma SelectOneReadOnly()
    ensures VerdictOn("SELECT 1") == ReadOnly
  {
    var text := "SELECT 1";
    assert Statements(Split(text, ';')) == [text] by {
      SplitWithout(text, ';');
      StripKeeps(text);
      StatementsCons(text, []);
    }
    assert Judge([text]) == ReadOnly by {
      SelectStarter();
      StartersAllowed();
      ConsParts(text, []);
    }
  }

  lemma SelectStarter()
    ensures Starter("SELECT 1") == "SELECT"
  {
    CapitalsStart("SELECT", " 1");
    assert "SELECT" + " 1" == "SELECT 1";
  }

  lemma DropStarter()
    ensures Starter("DROP TABLE t") == "DROP"
  {
    CapitalsStart("DROP", " TABLE t");
    assert "DROP" + " TABLE t" == "DROP TABLE t";
  }

  /** A word of capitals before white space is the statement's starter. */
  lemma CapitalsStart(w: string, rest: string)
    requires forall m :: 0 <= m < |w| ==> 'A' <= w[m] <= 'Z'
    requires rest != [] && rest[0] == ' '
    ensures Starter(w + rest) == w
  {
    FirstWordAt(w, rest);
    UpperKeeps(w);
  }

  /** Read in one pass, the same text is refused: its second statement
      starts with DROP. */
  lemma OnePassRefusesHiddenStatement()
    ensures ValidateOnePass(HIDING_SQL) == Rejected(400, NotReadOnly("DROP"))
  {
    OnePassStrip();
    HiddenStatements();
    HiddenJudged();
  }

  lemma OnePassStrip()
    ensures StripComments(HIDING_SQL) == "SELECT 1\n" + [';'] + "DROP TABLE t"
  {
    var a := "SELECT 1";
    var b := "DROP TABLE t";
    var rest := [';'] + b + ("--" + "*/");
    var mid := "--" + "/*" + "\n" + rest;
    assert HIDING_SQL == a + mid by {
      HidingPiecesOnePass(a, b, rest);
    }
    assert StripComments(mid) == "\n" + ([';'] + b) by {
      LineCommentHidesOnlyItsLine("/*", rest);
      SecondLineKept(b, rest);
    }
    assert StripComments(a + mid) == a + StripComments(mid) by {
      SelectOnePlain();
      PlainPrefix(a, mid);
    }
    assert a + ("\n" + ([';'] + b)) == "SELECT 1\n" + [';'] + "DROP TABLE t" by {
      FirstLineJoined(a, b);
    }
  }

  lemma FirstLineJoined(a: string, b: string)
    requires a == "SELECT 1" && b == "DROP TABLE t"
    ensures a + ("\n" + ([';'] + b)) == "SELECT 1\n" + [';'] + "DROP TABLE t"
  {
    ConcatAssoc(a, "\n", [';'] + b);
    ConcatAssoc(a + "\n", [';'], b);
  }

  lemma HidingPiecesOnePass(a: string, b: string, rest: string)
    requires a == "SELECT 1" && b == "DROP TABLE t" && rest == [';'] + b + ("--" + "*/")
    ensures HIDING_SQL == a + ("--" + "/*" + "\n" + rest)
  {
  }

  lemma SecondLineKept(b: string, rest: string)
    requires b == "DROP TABLE t" && rest == [';'] + b + ("--" + "*/")
    ensures StripComments(rest) == [';'] + b
  {
    LineCommentHidesOnlyItsLine("*/", "");
    assert Plain([';'] + b);
    PlainPrefix([';'] + b, "--" + "*/");
  }

  lemma HiddenStatements()
    ensures Statements(Split("SELECT 1\n" + [';'] + "DROP TABLE t", ';')) == ["SELECT 1", "DROP TABLE t"]
  {
    var first := "SELECT 1\n";
    var second := "DROP TABLE t";
    assert Split(first + [';'] + second, ';') == [first, second] by {
      SplitAt(first, ';', second);
      SplitWithout(second, ';');
    }
    assert Strip(first) == "SELECT 1" by {
      StripOfFirstLine();
    }
    assert Strip(second) == second by {
      StripKeeps(second);
    }
    StatementsOfTwo(first, second);
  }

  lemma StripOfFirstLine()
    ensures Strip("SELECT 1\n") == "SELECT 1"
  {
    var first := "SELECT 1\n";
    assert TrimStart(first) == first;
    assert TrimEnd(first) == TrimEnd("SELECT 1") by {
      assert first[..|first| - 1] == "SELECT 1";
    }
    assert TrimEnd("SELECT 1") == "SELECT 1";
  }

  lemma HiddenJudged()
    ensures Judge(["SELECT 1", "DROP TABLE t"]) == Rejected(400, NotReadOnly("DROP"))
  {
    var stmts := ["SELECT 1", "DROP TABLE t"];
    SelectStarter();
    DropStarter();
    StartersAllowed();
    assert stmts[1..] == ["DROP TABLE t"];
    assert ["DROP TABLE t"][1..] == [];
  }

  lemma StatementsOfTwo(x: string, y: string)
    requires Strip(x) != [] && Strip(y) != []
    ensures Statements([x, y]) == [Strip(x), Strip(y)]
  {
    assert Statements([x, y]) == Kept(x) + Statements([y]) by {
      PairParts(x, y);
      StatementsCons(x, [y]);
    }
    assert Statements([y]) == Kept(y) by {
      StatementsCons(y, []);
    }
  }

  lemma StartersAllowed()
    ensures "SELECT" in ALLOWED_STARTERS && "DROP" !in ALLOWED_STARTERS
  {
  }

  lemma SelectOnePlain()
    ensures Plain("SELECT 1")
  {
  }

  /** Text with no space at either end is left alone by `strip()`. */
  lemma StripKeeps(s: string)
    requires s != [] && !IsSpace(s[0]) && !IsSpace(s[|s| - 1])
    ensures Strip(s) == s
  {
  }

  /** Text without lower-case letters is left alone by `upper()`. */
  lemma UpperKeeps(s: string)
    requires forall m :: 0 <= m < |s| ==> !('a' <= s[m] <= 'z')
    ensures UpperAll(s) == s
  {
  }

  // ---------------------------------------------------------------------
  // Splitting

  lemma {:induction false} SplitWithout(s: string, sep: char)
    requires sep !in s
    ensures Split(s, sep) == [s]
    decreases |s|
  {
    if s != [] {
      SplitWithout(s[1..], sep);
      assert [s[0]] + s[1..] == s;
    }
  }

  lemma {:induction false} SplitAt(p: string, sep: char, q: string)
    requires sep !in p
    ensures Split(p + [sep] + q, sep) == [p] + Split(q, sep)
    decreases |p|
  {
    var s := p + [sep] + q;
    if p == [] {
      assert s[1..] == q;
    } else {
      assert s[1..] == p[1..] + [sep] + q;
      SplitAt(p[1..], sep, q);
      assert [p[0]] + p[1..] == p;
    }
  }

  /** Joining the pieces with the separator gives the text back. */
  lemma {:induction false} SplitJoin(s: string, sep: char)
    ensures Join(Split(s, sep), [sep]) == s
    decreases |s|
  {
    if s != [] {
      SplitJoin(s[1..], sep);
      if s[0] == sep {
        SplitJoinSep(s, sep);
      } else {
        SplitJoinOther(s, sep);
      }
    }
  }

  /** A text starting with the separator: an empty piece, then the rest. */
  lemma SplitJoinSep(s: string, sep: char)
    requires s != [] && s[0] == sep
    requires Join(Split(s[1..], sep), [sep]) == s[1..]
    ensures Join(Split(s, sep), [sep]) == s
  {
    var rest := Split(s[1..], sep);
    assert Split(s, sep) == [""] + rest;
    JoinEmptyHead(rest, [sep]);
    assert [sep] + s[1..] == s;
  }

  /** A text starting with another character: it joins the first piece. */
  lemma SplitJoinOther(s: string, sep: char)
    requires s != [] && s[0] != sep
    requires Join(Split(s[1..], sep), [sep]) == s[1..]
    ensures Join(Split(s, sep), [sep]) == s
  {
    var rest := Split(s[1..], sep);
    assert Split(s, sep) == [[s[0]] + rest[0]] + rest[1..];
    JoinConsHead(s[0], rest, [sep]);
    assert [s[0]] + s[1..] == s;
  }

  lemma JoinEmptyHead(rest: seq<string>, sep: string)
    requires rest != []
    ensures Join([""] + rest, sep) == sep + Join(rest, sep)
  {
    assert ([""] + rest)[1..] == rest;
  }

  lemma JoinConsHead(c: char, rest: seq<string>, sep: string)
    requires rest != []
    ensures Join([[c] + rest[0]] + rest[1..], sep) == [c] + Join(rest, sep)
  {
    var parts := [[c] + rest[0]] + rest[1..];
    if |rest| > 1 {
      assert parts[1..] == rest[1..];
      ConcatAssoc([c], rest[0] + sep, Join(rest[1..], sep));
      ConcatAssoc([c], rest[0], sep);
    }
  }

  lemma {:induction false} FirstWordAt(w: string, rest: string)
    requires forall m :: 0 <= m < |w| ==> !IsSpace(w[m])
    requires rest != [] && IsSpace(rest[0])
    ensures FirstWord(w + rest) == w
    decreases |w|
  {
    var s := w + rest;
    if w != [] {
      assert s[1..] == w[1..] + rest;
      FirstWordAt(w[1..], rest);
      assert [w[0]] + w[1..] == w;
    }
  }

  // ---------------------------------------------------------------------
  // Letter case

  function UpperEach(ps: seq<string>): (us: seq<string>)
    ensures |us| == |ps| && forall i :: 0 <= i < |ps| ==> us[i] == UpperAll(ps[i])
  {
    seq(|ps|, i requires 0 <= i < |ps| => UpperAll(ps[i]))
  }

  lemma UpperSlice(s: string, k: nat)
    requires k <= |s|
    ensures UpperAll(s)[k..] == UpperAll(s[k..])
    ensures UpperAll(s)[..k] == UpperAll(s[..k])
  {
  }

  lemma UpperConcat(a: string, b: string)
    ensures UpperAll(a + b) == UpperAll(a) + UpperAll(b)
  {
  }

  lemma {:induction false} CloseAtUpper(s: string, from: nat)
    ensures CloseAt(UpperAll(s), from) == CloseAt(s, from)
    decreases |s| - from
  {
    if from + 1 < |s| {
      CloseAtUpper(s, from + 1);
    }
  }

  lemma {:induction false} LineEndUpper(s: string, from: nat)
    requires from <= |s|
    ensures LineEnd(UpperAll(s), from) == LineEnd(s, from)
    decreases |s| - from
  {
    if from < |s| {
      LineEndUpper(s, from + 1);
    }
  }

  /** Removing comments and changing letter case can be done in either
      order: comment marks are not letters. */
  lemma {:induction false} StripCommentsUpper(s: string)
    ensures StripComments(UpperAll(s)) == UpperAll(StripComments(s))
    decreases |s|
  {
    var u := UpperAll(s);
    if |s| >= 2 && s[0] == '-' && s[1] == '-' {
      var e := LineEnd(s, 2);
      LineEndUpper(s, 2);
      UpperSlice(s, e);
      StripCommentsUpper(s[e..]);
    } else if |s| >= 2 && s[0] == '/' && s[1] == '*' && CloseAt(s, 2).Some? {
      var j := CloseAt(s, 2).value;
      CloseAtUpper(s, 2);
      UpperSlice(s, j + 2);
      StripCommentsUpper(s[j + 2..]);
    } else if s != [] {
      CloseAtUpper(s, 2);
      assert StripComments(u) == [u[0]] + StripComments(u[1..]);
      UpperSlice(s, 1);
      StripCommentsUpper(s[1..]);
      UpperConcat([s[0]], StripComments(s[1..]));
    }
  }

  lemma {:induction false} SplitUpper(s: string, sep: char)
    requires !('a' <= sep <= 'z') && !('A' <= sep <= 'Z')
    ensures Split(UpperAll(s), sep) == UpperEach(Split(s, sep))
    decreases |s|
  {
    if s != [] {
      var u := UpperAll(s);
      var rest := Split(s[1..], sep);
      var urest := UpperEach(rest);
      assert Split(u[1..], sep) == urest by {
        UpperSlice(s, 1);
        SplitUpper(s[1..], sep);
      }
      assert u[0] == UpperChar(s[0]);
      if s[0] == sep {
        assert Split(u, sep) == [""] + urest by {
          assert u[0] == sep;
        }
        assert UpperEach(Split(s, sep)) == [""] + urest by {
          UpperEachCons("", rest);
        }
      } else {
        var head := [s[0]] + rest[0];
        assert Split(u, sep) == [[u[0]] + urest[0]] + urest[1..] by {
          assert u[0] != sep;
        }
        assert UpperEach(Split(s, sep)) == [[u[0]] + urest[0]] + urest[1..] by {
          assert Split(s, sep) == [head] + rest[1..];
          UpperEachCons(head, rest[1..]);
          UpperConcat([s[0]], rest[0]);
          assert UpperAll([s[0]]) == [u[0]];
          assert urest[0] == UpperAll(rest[0]);
          UpperEachTail(rest);
        }
      }
    }
  }

  lemma {:induction false} TrimStartUpper(s: string)
    ensures TrimStart(UpperAll(s)) == UpperAll(TrimStart(s))
    decreases |s|
  {
    if s != [] && IsSpace(s[0]) {
      UpperSlice(s, 1);
      TrimStartUpper(s[1..]);
    }
  }

  lemma {:induction false} TrimEndUpper(s: string)
    ensures TrimEnd(UpperAll(s)) == UpperAll(TrimEnd(s))
    decreases |s|
  {
    if s != [] && IsSpace(s[|s| - 1]) {
      UpperSlice(s, |s| - 1);
      TrimEndUpper(s[..|s| - 1]);
    }
  }

  lemma {:induction false} StatementsUpper(parts: seq<string>)
    ensures Statements(UpperEach(parts)) == UpperEach(Statements(parts))
    decreases |parts|
  {
    if parts != [] {
      var us := UpperEach(parts);
      var t := Strip(parts[0]);
      var tail := Statements(parts[1..]);
      assert Statements(us[1..]) == UpperEach(tail) by {
        UpperEachTail(parts);
        StatementsUpper(parts[1..]);
      }
      assert Strip(us[0]) == UpperAll(t) by {
        TrimStartUpper(parts[0]);
        TrimEndUpper(TrimStart(parts[0]));
      }
      if t == [] {
        assert Statements(us) == UpperEach(tail);
      } else {
        assert Statements(us) == [UpperAll(t)] + UpperEach(tail);
        assert Statements(parts) == [t] + tail;
        UpperEachCons(t, tail);
      }
    }
  }

  lemma UpperEachTail(ps: seq<string>)
    requires ps != []
    ensures UpperEach(ps)[1..] == UpperEach(ps[1..])
  {
  }

  lemma UpperEachCons(t: string, ps: seq<string>)
    ensures UpperEach([t] + ps) == [UpperAll(t)] + UpperEach(ps)
  {
  }

  lemma {:induction false} FirstWordUpper(s: string)
    ensures FirstWord(UpperAll(s)) == UpperAll(FirstWord(s))
    decreases |s|
  {
    if s != [] && !IsSpace(s[0]) {
      UpperSlice(s, 1);
      FirstWordUpper(s[1..]);
      UpperConcat([s[0]], FirstWord(s[1..]));
    }
  }

  lemma UpperTwice(s: string)
    ensures UpperAll(UpperAll(s)) == UpperAll(s)
  {
  }

  lemma {:induction false} JudgeUpper(stmts: seq<string>)
    ensures Judge(UpperEach(stmts)) == Judge(stmts)
    decreases |stmts|
  {
    if stmts != [] {
      var us := UpperEach(stmts);
      FirstWordUpper(stmts[0]);
      UpperTwice(FirstWord(stmts[0]));
      assert Starter(us[0]) == Starter(stmts[0]);
      assert us[1..] == UpperEach(stmts[1..]);
      JudgeUpper(stmts[1..]);
    }
  }

  lemma {:induction false} StripBlockCommentsUpper(s: string)
    ensures StripBlockComments(UpperAll(s)) == UpperAll(StripBlockComments(s))
    decreases |s|
  {
    var u := UpperAll(s);
    CloseAtUpper(s, 2);
    if |s| >= 2 && s[0] == '/' && s[1] == '*' && CloseAt(s, 2).Some? {
      var j := CloseAt(s, 2).value;
      UpperSlice(s, j + 2);
      StripBlockCommentsUpper(s[j + 2..]);
    } else if s != [] {
      assert StripBlockComments(u) == [u[0]] + StripBlockComments(u[1..]);
      UpperSlice(s, 1);
      StripBlockCommentsUpper(s[1..]);
      UpperConcat([s[0]], StripBlockComments(s[1..]));
    }
  }

  lemma {:induction false} StripLineCommentsUpper(s: string)
    ensures StripLineComments(UpperAll(s)) == UpperAll(StripLineComments(s))
    decreases |s|
  {
    var u := UpperAll(s);
    if |s| >= 2 && s[0] == '-' && s[1] == '-' {
      var e := LineEnd(s, 2);
      LineEndUpper(s, 2);
      UpperSlice(s, e);
      StripLineCommentsUpper(s[e..]);
    } else if s != [] {
      assert StripLineComments(u) == [u[0]] + StripLineComments(u[1..]);
      UpperSlice(s, 1);
      StripLineCommentsUpper(s[1..]);
      UpperConcat([s[0]], StripLineComments(s[1..]));
    }
  }

  /** Once comments are gone, the verdict does not depend on letter case. */
  lemma VerdictOnUpper(text: string)
    ensures VerdictOn(UpperAll(text)) == VerdictOn(text)
  {
    SplitUpper(text, ';');
    StatementsUpper(Split(text, ';'));
    JudgeUpper(Statements(Split(text, ';')));
  }

  /** The guard does not depend on letter case: `select`, `Select` and
      `SELECT` are treated alike, and so is any statement written in upper
      case. */
  lemma ValidationIgnoresCase(sql: string)
    ensures ValidateReadOnlySql(UpperAll(sql)) == ValidateReadOnlySql(sql)
  {
    StripBlockCommentsUpper(sql);
    StripLineCommentsUpper(StripBlockComments(sql));
    VerdictOnUpper(StripCommentsAsWritten(sql));
  }

  /** The one-pass guard does not depend on letter case either. */
  lemma OnePassIgnoresCase(sql: string)
    ensures ValidateOnePass(UpperAll(sql)) == ValidateOnePass(sql)
  {
    StripCommentsUpper(sql);
    VerdictOnUpper(StripComments(sql));
  }
}
