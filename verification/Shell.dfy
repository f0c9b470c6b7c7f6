/** The shell's command line: splitting it into the fixed-size argument rows of a spawn request. */
module Shell {
  import opened Layout

  predicate NoSpace(s: string) { forall i :: 0 <= i < |s| ==> s[i] != ' ' }

  predicate AllSpace(s: string) { forall i :: 0 <= i < |s| ==> s[i] == ' ' }

  /** Where the word at the start of `s` ends. */
  function WordEnd(s: string): (k: nat)
    ensures k <= |s| && NoSpace(s[..k]) && (k < |s| ==> s[k] == ' ')
  {
    if s == [] || s[0] == ' ' then 0 else
      var k := 1 + WordEnd(s[1..]);
      assert forall i :: 0 < i < k ==> s[i] == s[1..][i - 1];
      k
  }

  /** The words of a line, by splitting at spaces. */
  function Fields(s: string): (ws: seq<string>)
    ensures forall i :: 0 <= i < |ws| ==> ws[i] != [] && NoSpace(ws[i])
    ensures ws == [] <==> AllSpace(s)
    decreases |s|
  {
    if s == [] then []
    else if s[0] == ' ' then
      assert AllSpace(s[1..]) ==> AllSpace(s) by { assert forall i :: 0 < i < |s| ==> s[i] == s[1..][i - 1]; }
      Fields(s[1..])
    else [s[..WordEnd(s)]] + Fields(s[WordEnd(s)..])
  }

  lemma {:induction false} WordEndIs(w: string, rest: string)
    requires NoSpace(w) && (rest == [] || rest[0] == ' ')
    ensures WordEnd(w + rest) == |w|
  {
    if w == [] {
      assert w + rest == rest;
    } else {
      assert (w + rest)[1..] == w[1..] + rest;
      WordEndIs(w[1..], rest);
    }
  }

  lemma FieldsCut(w: string, rest: string)
    requires w != [] && NoSpace(w)
    ensures Fields(w + [' '] + rest) == [w] + Fields(rest)
    ensures Fields(w) == [w]
  {
    var s := w + [' '] + rest;
    assert s == w + ([' '] + rest);
    WordEndIs(w, [' '] + rest);
    assert s[..|w|] == w && s[|w|..] == [' '] + rest && ([' '] + rest)[1..] == rest;
    WordEndIs(w, []);
    assert w + [] == w && w[..|w|] == w && w[|w|..] == [];
  }

  /** A word in progress is at the head of the first field. */
  lemma FieldsHead(w: string, rest: string)
    requires w != [] && NoSpace(w)
    ensures Fields(w + rest) != [] && w <= Fields(w + rest)[0]
  {
  }

  // ---- Joining with single spaces ----

  function Join(ws: seq<string>): (s: string) {
    if ws == [] then [] else if |ws| == 1 then ws[0] else ws[0] + [' '] + Join(ws[1..])
  }

  predicate AreWords(ws: seq<string>) { forall i :: 0 <= i < |ws| ==> ws[i] != [] && NoSpace(ws[i]) }

  lemma {:induction false} FieldsOfJoin(ws: seq<string>)
    requires AreWords(ws)
    ensures Fields(Join(ws)) == ws
    ensures ws != [] ==> Join(ws) != [] && Join(ws)[|Join(ws)| - 1] != ' '
  {
    hide Fields;
    if |ws| == 1 {
      FieldsCut(ws[0], []);
    } else if |ws| > 1 {
      FieldsOfJoin(ws[1..]);
      FieldsCut(ws[0], Join(ws[1..]));
    } else {
      assert AllSpace(Join(ws));
    }
  }

  // ---- Parsing ----

  /** A request holds 16 words of at most 31 characters; sixteen only if no space follows the last. */
  predicate Accepts(s: string) {
    && (forall i :: 0 <= i < |Fields(s)| ==> |Fields(s)[i]| < CMD_ARG_LEN)
    && |Fields(s)| <= CMD_NARGS
    && (|Fields(s)| == CMD_NARGS ==> s[|s| - 1] != ' ')
  }

  /** Parsing the words joined by single spaces gives the request again. */
  lemma Reparse(s: string)
    requires Accepts(s)
    ensures Accepts(Join(Fields(s))) && Fields(Join(Fields(s))) == Fields(s)
  {
    FieldsOfJoin(Fields(s));
  }

  /** The argument rows: the words, each padded with NULs, and NULs only in the other rows. */
  ghost predicate Rows(argv: array2<char>, ws: seq<string>)
    reads argv
  {
    forall r, c :: 0 <= r < argv.Length0 && 0 <= c < argv.Length1 ==>
      argv[r, c] == if r < |ws| && c < |ws[r]| then ws[r][c] else '\0'
  }

  /** The first `i` characters give the rows `done` and the word `cur` in progress. */
  ghost predicate Parsed(s: string, i: nat, done: seq<string>, cur: string) {
    && |cur| <= i <= |s| && NoSpace(cur) && cur == s[i - |cur|..i]
    && |done| < CMD_NARGS && |cur| < CMD_ARG_LEN
    && (forall k :: 0 <= k < |done| ==> |done[k]| < CMD_ARG_LEN)
    && Fields(s) == done + Fields(cur + s[i..])
  }

  lemma ParseStart(s: string)
    ensures Parsed(s, 0, [], [])
  {
    assert [] + s[0..] == s;
  }

  lemma ParseChar(s: string, i: nat, done: seq<string>, cur: string)
    requires Parsed(s, i, done, cur) && i < |s| && s[i] != ' '
    ensures if |cur| + 1 < CMD_ARG_LEN then Parsed(s, i + 1, done, cur + [s[i]]) else !Accepts(s)
  {
    var cur' := cur + [s[i]];
    assert cur + s[i..] == cur' + s[i + 1..];
    if |cur'| >= CMD_ARG_LEN {
      FieldsHead(cur', s[i + 1..]);
      assert Fields(s)[|done|] == Fields(cur' + s[i + 1..])[0];
    }
  }

  lemma SkipSpace(s: string, i: nat, done: seq<string>)
    requires Parsed(s, i, done, []) && i < |s| && s[i] == ' '
    ensures Parsed(s, i + 1, done, [])
  {
    assert [] + s[i..] == s[i..] && [] + s[i + 1..] == s[i + 1..];
    assert s[i..][1..] == s[i + 1..];
  }

  /** Sixteen words with a space behind them are refused, whatever follows. */
  lemma NoRoom(s: string, i: nat, ws: seq<string>)
    requires i < |s| && s[i] == ' ' && |ws| == CMD_NARGS && Fields(s) == ws + Fields(s[i + 1..])
    ensures !Accepts(s)
  {
  }

  lemma ParseSpace(s: string, i: nat, done: seq<string>, cur: string)
    requires Parsed(s, i, done, cur) && i < |s| && s[i] == ' ' && cur != []
    ensures if |done| + 1 < CMD_NARGS then Parsed(s, i + 1, done + [cur], []) else !Accepts(s)
  {
    hide Fields, Accepts;
    var rest := s[i + 1..];
    assert s[i..] == [' '] + rest;
    assert cur + s[i..] == cur + [' '] + rest;
    FieldsCut(cur, rest);
    assert Fields(s) == done + ([cur] + Fields(rest)) == (done + [cur]) + Fields(rest);
    assert [] + rest == rest;
    if |done| + 1 == CMD_NARGS {
      NoRoom(s, i, done + [cur]);
    }
  }

  lemma ParseEnd(s: string, done: seq<string>, cur: string)
    requires Parsed(s, |s|, done, cur)
    ensures Accepts(s) && Fields(s) == if cur == [] then done else done + [cur]
  {
    assert cur + s[|s|..] == cur;
    if cur != [] {
      FieldsCut(cur, []);
      assert s[|s| - 1] == cur[|cur| - 1];
    }
  }

  /** `parse_request`: accepts exactly the lines that fit, and then holds exactly their words. */
  method ParseRequest(buf: string, argv: array2<char>) returns (ok: bool, argc: nat)
    requires argv.Length0 == CMD_NARGS && argv.Length1 == CMD_ARG_LEN
    modifies argv
    ensures ok <==> Accepts(buf)
    ensures ok ==> argc == |Fields(buf)| && Rows(argv, Fields(buf))
  {
    hide Fields, Accepts, Parsed;
    var idx, nargs := 0, 0;
    forall r, c | 0 <= r < CMD_NARGS && 0 <= c < CMD_ARG_LEN {
      argv[r, c] := '\0';
    }
    ghost var done: seq<string>, cur: string := [], [];
    ParseStart(buf);
    argc := 0;
    var i := 0;
    while i < |buf|
      invariant 0 <= i <= |buf| && nargs == |done| < CMD_NARGS && idx == |cur| < CMD_ARG_LEN
      invariant Parsed(buf, i, done, cur) && Rows(argv, done + [cur])
    {
      if buf[i] != ' ' {
        ParseChar(buf, i, done, cur);
        argv[nargs, idx] := buf[i];
        cur := cur + [buf[i]];
        idx := idx + 1;
        if idx >= CMD_ARG_LEN {
          return false, 0;
        }
      } else if idx != 0 {
        ParseSpace(buf, i, done, cur);
        argv[nargs, idx] := '\0';
        idx := 0;
        nargs := nargs + 1;
        done, cur := done + [cur], [];
        if nargs >= CMD_NARGS {
          return false, 0;
        }
      } else {
        SkipSpace(buf, i, done);
      }
      i := i + 1;
    }
    ParseEnd(buf, done, cur);
    ok, argc := true, if idx != 0 then nargs + 1 else nargs;
  }
}
