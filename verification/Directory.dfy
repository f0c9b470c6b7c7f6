/** Directory lookup: finding a name in the text of a directory listing. */
module Directory {
  import opened Words
  import opened Shell

  // ---- Numbers in text ----

  predicate IsDigit(c: char) { '0' <= c <= '9' }

  function DigitOf(c: char): (d: nat)
    requires IsDigit(c)
  {
    (c - '0') as int
  }

  /** The number that starts with the digits behind `acc` and goes on with those at the head of `s`. */
  function Number(acc: nat, s: string): (n: nat)
    decreases |s|
  {
    if s == [] || !IsDigit(s[0]) then acc else Number(10 * acc + DigitOf(s[0]), s[1..])
  }

  predicate IsBlank(c: char) { c == ' ' || '\t' <= c <= '\r' }

  /** `atoi`: blanks, a sign, digits. */
  function Atoi(s: string): (n: int) {
    if s == [] then 0
    else if IsBlank(s[0]) then Atoi(s[1..])
    else if s[0] == '-' then 0 - Number(0, s[1..])
    else if s[0] == '+' then Number(0, s[1..])
    else Number(0, s)
  }

  function Decimal(n: nat): (s: string)
    ensures s != [] && forall i :: 0 <= i < |s| ==> IsDigit(s[i])
  {
    if n < 10 then ['0' + n as char] else Decimal(n / 10) + ['0' + (n % 10) as char]
  }

  lemma {:induction false} NumberOfDecimal(n: nat, rest: string)
    ensures Number(0, Decimal(n) + rest) == Number(n, rest)
  {
    var d := ['0' + (n % 10) as char];
    if n < 10 {
      assert (d + rest)[1..] == rest;
    } else {
      assert Decimal(n) + rest == Decimal(n / 10) + (d + rest);
      NumberOfDecimal(n / 10, d + rest);
      assert (d + rest)[1..] == rest;
    }
  }

  lemma {:induction false} AtoiOfDecimal(blanks: string, n: nat, rest: string)
    requires AllSpace(blanks) && (rest == [] || !IsDigit(rest[0]))
    ensures Atoi(blanks + Decimal(n) + rest) == n
  {
    var s := blanks + Decimal(n) + rest;
    if blanks == [] {
      assert s == Decimal(n) + rest && s[0] == Decimal(n)[0];
      NumberOfDecimal(n, rest);
    } else {
      assert s[1..] == blanks[1..] + Decimal(n) + rest;
      AtoiOfDecimal(blanks[1..], n, rest);
    }
  }

  // ---- The search ----

  /** The name stands at `i`, between spaces. */
  predicate Match(buf: string, name: string, i: nat) {
    && i + |name| < |buf|
    && buf[i..i + |name|] == name && buf[i + |name|] == ' ' && (i == 0 || buf[i - 1] == ' ')
  }

  ghost predicate FirstMatch(buf: string, name: string, i: nat) {
    Match(buf, name, i) && forall j: nat :: j < i ==> !Match(buf, name, j)
  }

  /** The number behind the first match, or -1. */
  ghost predicate Found(buf: string, name: string, ino: int) {
    || (exists i: nat :: FirstMatch(buf, name, i) && ino == Atoi(buf[i + |name|..]))
    || (ino == -1 && forall i: nat :: !Match(buf, name, i))
  }

  /** An inode number or -1; or the loop has run past the end of the text. */
  datatype Lookup = Ino(ino: int) | Overrun

  /** `dir_do_lookup`, on the text of the listing: the number behind the first match, or -1. The bound of the loop is a
      32-bit difference of lengths. Up to the terminator a comparison stops there at the latest, as no name contains
      it; behind it the loop reads on, and does so exactly when the name is longer than the listing. */
  method DirDoLookup(buf: string, name: string) returns (r: Lookup)
    requires |buf| < WORD && |name| < WORD - 1
    ensures r.Overrun? <==> |name| > |buf|
    ensures r.Ino? ==> Found(buf, name, r.ino)
  {
    var i, len, bound := 0, |name|, Bound(buf, name);
    while i < bound
      invariant 0 <= i <= bound && (len > |buf| ==> i <= |buf| + 1)
      invariant forall j: nat :: j < i ==> !Match(buf, name, j)
    {
      if i > |buf| { return Overrun; }
      if i + len <= |buf| && buf[i..i + len] == name && i + len < |buf| && buf[i + len] == ' ' && (i == 0 || buf[i - 1] == ' ') {
        assert FirstMatch(buf, name, i);
        return Ino(Atoi(buf[i + len..]));
      }
      i := i + 1;
    }
    return Ino(-1);
  }

  function Bound(buf: string, name: string): (n: Word) { (|buf| - |name|) % WORD }

  /** The home directory of a user is 15 characters long, and the shell passes names of up to 31: for one of 16 the
      loop is to go round 2^32 - 1 times. */
  lemma LongName(name: string)
    requires |name| == 16
    ensures var listing := Listing([Entry("./", "   ", 3), Entry("../", "   ", 1)]);
            listing == "./   3 ../   1 " && |name| > |listing| && Bound(listing, name) == WORD - 1
  {
    var es := [Entry("./", "   ", 3), Entry("../", "   ", 1)];
    assert Decimal(3) == "3" && Decimal(1) == "1";
    assert Listing(es[1..]) == "../   1 ";
  }

  // ---- Listings ----

  /** A word of the listing and the spaces behind it. */
  datatype Field = Field(word: string, spaces: string)

  predicate IsField(f: Field) { f.word != [] && NoSpace(f.word) && f.spaces != [] && AllSpace(f.spaces) }

  predicate AreFields(fs: seq<Field>) { forall k :: 0 <= k < |fs| ==> IsField(fs[k]) }

  function Text(fs: seq<Field>): (s: string) {
    if fs == [] then [] else fs[0].word + fs[0].spaces + Text(fs[1..])
  }

  /** The first field that is `name`, or the number of fields. */
  function Position(fs: seq<Field>, name: string): (k: nat)
    ensures k <= |fs| && (k < |fs| ==> fs[k].word == name) && forall j :: 0 <= j < k ==> fs[j].word != name
  {
    if fs == [] || fs[0].word == name then 0 else 1 + Position(fs[1..], name)
  }

  /** Text that ends where a field may start. */
  predicate AtBreak(pre: string) { pre == [] || pre[|pre| - 1] == ' ' }

  /** Within one field, only its start can match, and only if it is the name. */
  lemma MatchInField(pre: string, f: Field, rest: string, name: string, i: nat)
    requires AtBreak(pre) && IsField(f) && name != [] && NoSpace(name)
    requires |pre| <= i < |pre| + |f.word| + |f.spaces|
    ensures Match(pre + (f.word + f.spaces + rest), name, i) <==> i == |pre| && f.word == name
  {
    var buf := pre + (f.word + f.spaces + rest);
    assert forall k :: 0 <= k < |f.word| ==> buf[|pre| + k] == f.word[k];
    assert forall k :: 0 <= k < |f.spaces| ==> buf[|pre| + |f.word| + k] == f.spaces[k];
    if i == |pre| {
      StartMatches(pre, f, rest, name);
    } else if i < |pre| + |f.word| {
      assert buf[i - 1] == f.word[i - 1 - |pre|];
    } else {
      assert buf[i] == f.spaces[i - |pre| - |f.word|];
      assert i + |name| <= |buf| ==> buf[i..i + |name|][0] == buf[i];
    }
  }

  lemma StartMatches(pre: string, f: Field, rest: string, name: string)
    requires AtBreak(pre) && IsField(f) && name != [] && NoSpace(name)
    ensures Match(pre + (f.word + f.spaces + rest), name, |pre|) <==> f.word == name
  {
    var buf, n, m := pre + (f.word + f.spaces + rest), |name|, |f.word|;
    assert forall k :: 0 <= k < m ==> buf[|pre| + k] == f.word[k];
    assert buf[|pre| + m] == f.spaces[0];
    if n < m {
      assert buf[|pre| + n] == f.word[n];
    } else if m < n {
      assert |pre| + n <= |buf| ==> buf[|pre|..|pre| + n][m] == f.spaces[0];
    } else {
      assert buf[|pre|..|pre| + n] == f.word;
    }
  }

  /** The rest of a listing, seen from behind its first field. */
  lemma NextField(pre: string, fs: seq<Field>)
    requires fs != [] && IsField(fs[0])
    ensures var pre' := pre + (fs[0].word + fs[0].spaces);
            AtBreak(pre') && pre + Text(fs) == pre' + Text(fs[1..]) && pre + Text(fs) == pre + (fs[0].word + fs[0].spaces + Text(fs[1..]))
  {
    var pre' := pre + (fs[0].word + fs[0].spaces);
    assert pre'[|pre'| - 1] == fs[0].spaces[|fs[0].spaces| - 1];
  }

  /** Nothing matches before the first field that is the name. */
  lemma {:induction false} NoneBefore(pre: string, fs: seq<Field>, name: string, i: nat)
    requires AtBreak(pre) && AreFields(fs) && name != [] && NoSpace(name)
    requires |pre| <= i < |pre| + |Text(fs[..Position(fs, name)])|
    ensures !Match(pre + Text(fs), name, i)
    decreases |fs|
  {
    hide Match, NoSpace, AllSpace;
    var k := Position(fs, name);
    NextField(pre, fs);
    assert fs[..k][1..] == fs[1..][..k - 1];
    if i < |pre| + |fs[0].word| + |fs[0].spaces| {
      MatchInField(pre, fs[0], Text(fs[1..]), name, i);
    } else {
      NoneBefore(pre + (fs[0].word + fs[0].spaces), fs[1..], name, i);
    }
  }

  lemma {:induction false} MatchThere(pre: string, fs: seq<Field>, name: string)
    requires AtBreak(pre) && AreFields(fs) && name != [] && NoSpace(name) && Position(fs, name) < |fs|
    ensures Match(pre + Text(fs), name, |pre| + |Text(fs[..Position(fs, name)])|)
    decreases |fs|
  {
    hide Match, NoSpace, AllSpace;
    var k := Position(fs, name);
    NextField(pre, fs);
    if k == 0 {
      MatchInField(pre, fs[0], Text(fs[1..]), name, |pre|);
    } else {
      assert fs[..k][1..] == fs[1..][..k - 1];
      MatchThere(pre + (fs[0].word + fs[0].spaces), fs[1..], name);
    }
  }

  /** What follows field `k`. */
  lemma {:induction false} TextSplits(fs: seq<Field>, k: nat)
    requires k < |fs|
    ensures |Text(fs[..k])| + |fs[k].word| <= |Text(fs)|
    ensures Text(fs)[|Text(fs[..k])| + |fs[k].word|..] == fs[k].spaces + Text(fs[k + 1..])
  {
    if k == 0 {
      assert Text(fs) == fs[0].word + (fs[0].spaces + Text(fs[1..]));
    } else {
      TextSplits(fs[1..], k - 1);
      assert fs[..k][1..] == fs[1..][..k - 1] && fs[1..][k..] == fs[k + 1..];
      assert Text(fs) == (fs[0].word + fs[0].spaces) + Text(fs[1..]);
    }
  }

  /** The number at the start of what follows the first field that is the name, or -1. */
  ghost predicate Answers(fs: seq<Field>, name: string, ino: int) {
    var k := Position(fs, name);
    ino == if k < |fs| then Atoi(fs[k].spaces + Text(fs[k + 1..])) else -1
  }

  /** Lookup on any text of fields. */
  lemma LookupFields(fs: seq<Field>, name: string, ino: int)
    requires AreFields(fs) && name != [] && NoSpace(name) && Found(Text(fs), name, ino)
    ensures Answers(fs, name, ino)
  {
    hide Match, Found, Atoi, AreFields, Text, Position, NoSpace;
    var k, s := Position(fs, name), Text(fs);
    FirstField(fs, name);
    if k < |fs| {
      FoundAt(s, name, |Text(fs[..k])|, ino);
      TextSplits(fs, k);
    } else {
      FoundNone(s, name, ino);
    }
  }

  lemma FirstField(fs: seq<Field>, name: string)
    requires AreFields(fs) && name != [] && NoSpace(name)
    ensures var k := Position(fs, name);
            if k < |fs| then FirstMatch(Text(fs), name, |Text(fs[..k])|) else forall i: nat :: !Match(Text(fs), name, i)
  {
    hide Match, NoSpace, AreFields, Text, Position;
    var k, s := Position(fs, name), Text(fs);
    assert [] + s == s;
    forall j: nat | j < |Text(fs[..k])| ensures !Match(s, name, j) {
      NoneBefore([], fs, name, j);
    }
    if k < |fs| {
      MatchThere([], fs, name);
    } else {
      assert fs[..k] == fs;
      NoneBehind(s, name);
    }
  }

  lemma FoundAt(s: string, name: string, at: nat, ino: int)
    requires FirstMatch(s, name, at) && Found(s, name, ino)
    ensures at + |name| <= |s| && ino == Atoi(s[at + |name|..])
  {
    hide Atoi;
  }

  lemma FoundNone(s: string, name: string, ino: int)
    requires Found(s, name, ino) && forall i: nat :: !Match(s, name, i)
    ensures ino == -1
  {
    hide Match;
  }

  lemma NoneBehind(s: string, name: string)
    ensures forall i: nat :: i >= |s| ==> !Match(s, name, i)
  {
  }

  // ---- Directories ----

  /** One entry: a name, spaces, its inode number, and one space. */
  datatype Entry = Entry(name: string, spaces: string, ino: nat)

  predicate IsEntry(e: Entry) { e.name != [] && NoSpace(e.name) && e.spaces != [] && AllSpace(e.spaces) }

  function FieldsOf(es: seq<Entry>): (fs: seq<Field>)
    ensures |fs| == 2 * |es|
  {
    if es == [] then [] else [Field(es[0].name, es[0].spaces), Field(Decimal(es[0].ino), " ")] + FieldsOf(es[1..])
  }

  /** The listing as `mkfs` writes it. */
  function Listing(es: seq<Entry>): (s: string) {
    if es == [] then [] else es[0].name + es[0].spaces + Decimal(es[0].ino) + " " + Listing(es[1..])
  }

  /** What a lookup gives: inode numbers are searched along with the names, and the text behind one is then read as a number. */
  function Answer(es: seq<Entry>, name: string): (ino: int) {
    if es == [] then -1
    else if es[0].name == name then es[0].ino
    else if Decimal(es[0].ino) == name then Atoi(Listing(es[1..]))
    else Answer(es[1..], name)
  }

  function FirstEntry(es: seq<Entry>, name: string): (k: nat)
    ensures k <= |es| && (k < |es| ==> es[k].name == name) && forall j :: 0 <= j < k ==> es[j].name != name
  {
    if es == [] || es[0].name == name then 0 else 1 + FirstEntry(es[1..], name)
  }

  lemma {:induction false} ListingIsText(es: seq<Entry>)
    requires forall i :: 0 <= i < |es| ==> IsEntry(es[i])
    ensures Listing(es) == Text(FieldsOf(es)) && AreFields(FieldsOf(es))
  {
    if es != [] {
      ListingIsText(es[1..]);
      var e, fs := es[0], FieldsOf(es);
      assert fs[1..] == [Field(Decimal(e.ino), " ")] + FieldsOf(es[1..]) && fs[1..][1..] == FieldsOf(es[1..]);
      assert Text(fs) == e.name + e.spaces + (Decimal(e.ino) + " " + Listing(es[1..]));
    }
  }

  lemma SkipFields(f: Field, g: Field, fs: seq<Field>, name: string, ino: int)
    requires f.word != name && g.word != name && Answers(fs, name, ino)
    ensures Answers([f, g] + fs, name, ino)
  {
    hide Atoi, Text;
    var all := [f, g] + fs;
    assert all[1..][1..] == fs;
    var k := Position(fs, name);
    assert Position(all, name) == k + 2;
    assert k < |fs| ==> all[k + 3..] == fs[k + 1..];
  }

  lemma {:induction false} EntryAnswers(es: seq<Entry>, name: string)
    requires forall i :: 0 <= i < |es| ==> IsEntry(es[i])
    ensures Answers(FieldsOf(es), name, Answer(es, name))
  {
    if es != [] {
      var e, rest, fs := es[0], FieldsOf(es[1..]), FieldsOf(es);
      ListingIsText(es[1..]);
      if e.name == name {
        assert fs[1..][1..] == rest;
        AtoiOfDecimal(e.spaces, e.ino, " " + Text(rest));
        assert e.spaces + Text(fs[1..]) == e.spaces + Decimal(e.ino) + (" " + Text(rest));
      } else if Decimal(e.ino) == name {
        assert fs[1..][1..] == rest && Position(fs, name) == 1;
        assert (" " + Text(rest))[1..] == Text(rest);
      } else {
        EntryAnswers(es[1..], name);
        SkipFields(fs[0], fs[1], rest, name, Answer(es, name));
      }
    }
  }

  /** What a lookup should give: the first entry's inode, or -1 if there is none. */
  function Right(es: seq<Entry>, name: string): (ino: int) {
    if FirstEntry(es, name) < |es| then es[FirstEntry(es, name)].ino else -1
  }

  /** The name is the inode number of an entry before its own. */
  ghost predicate NumberFirst(es: seq<Entry>, name: string) {
    exists i :: 0 <= i < FirstEntry(es, name) && Decimal(es[i].ino) == name
  }

  lemma {:induction false} AnswerIsEntry(es: seq<Entry>, name: string)
    requires !NumberFirst(es, name)
    ensures Answer(es, name) == Right(es, name)
  {
    if es != [] && es[0].name != name {
      NumberLater(es, name);
      AnswerIsEntry(es[1..], name);
    }
  }

  lemma NumberLater(es: seq<Entry>, name: string)
    requires es != [] && es[0].name != name
    ensures NumberFirst(es, name) <==> Decimal(es[0].ino) == name || NumberFirst(es[1..], name)
    ensures Right(es, name) == Right(es[1..], name)
  {
  }

  /** A name that cannot be read as a number. */
  predicate Textual(name: string) { name != [] && !IsBlank(name[0]) && !IsDigit(name[0]) && name[0] != '-' && name[0] != '+' }

  lemma {:induction false} NumberAnswers(es: seq<Entry>, name: string)
    requires (forall i :: 0 <= i < |es| ==> Textual(es[i].name)) && NumberFirst(es, name)
    ensures Answer(es, name) == 0
  {
    NumberLater(es, name);
    if Decimal(es[0].ino) == name {
      if |es| > 1 {
        assert Textual(es[1].name) && es[1..][0] == es[1];
        assert Listing(es[1..])[0] == es[1].name[0];
      }
    } else {
      NumberAnswers(es[1..], name);
    }
  }

  /** In a directory of textual names, a lookup is right exactly when the name is not an earlier inode number, or inode 0 is right anyway. */
  lemma {:induction false} AnswerIsRight(es: seq<Entry>, name: string)
    requires forall i :: 0 <= i < |es| ==> Textual(es[i].name)
    ensures Answer(es, name) == Right(es, name) <==> !NumberFirst(es, name) || Right(es, name) == 0
  {
    if NumberFirst(es, name) {
      NumberAnswers(es, name);
    } else {
      AnswerIsEntry(es, name);
    }
  }

  /** A numeric name is not safe: "0" is in no entry of this directory, yet it is found. */
  lemma NumericName()
    ensures var es := [Entry("./", "   ", 0), Entry("../", "   ", 0)];
            Right(es, "0") == -1 && Answer(es, "0") == 0
  {
  }

  /** Lookup in the listing of a directory. */
  method LookUp(es: seq<Entry>, name: string) returns (r: Lookup)
    requires forall i :: 0 <= i < |es| ==> IsEntry(es[i])
    requires name != [] && NoSpace(name) && |Listing(es)| < WORD && |name| < WORD - 1
    ensures r.Overrun? <==> |name| > |Listing(es)|
    ensures r.Ino? ==> r.ino == Answer(es, name)
  {
    hide Match, Found, Atoi, AreFields, Text, Position, NoSpace, Answer, FieldsOf, Listing;
    r := DirDoLookup(Listing(es), name);
    if r.Ino? {
      ListingIsText(es);
      LookupFields(FieldsOf(es), name, r.ino);
      EntryAnswers(es, name);
    }
  }
}
