/** Directories are text: names and inode numbers, looked up by scanning for a word. */
module Directory {
  import opened Tokens

  // -------------------------------------------------------------------- numbers

  predicate IsDigit(c: char) {
    '0' <= c <= '9'
  }

  predicate AllDigits(s: string) {
    forall i :: 0 <= i < |s| ==> IsDigit(s[i])
  }

  function Decimal(n: nat): (s: string)
    ensures s != "" && AllDigits(s)
  {
    if n < 10 then [('0' as int + n) as char] else Decimal(n / 10) + [('0' as int + n % 10) as char]
  }

  lemma DecimalLength(n: nat)
    requires n < 1000
    ensures |Decimal(n)| <= 3
  {
    assert n >= 100 ==> |Decimal(n / 10 / 10)| == 1;
    assert n >= 10 ==> |Decimal(n / 10)| <= 2;
  }

  /** strtol on digits, from an accumulated value. */
  function Digits(s: string, acc: nat): nat
    decreases |s|
  {
    if s == "" || !IsDigit(s[0]) then acc else Digits(s[1..], 10 * acc + (s[0] as int - '0' as int))
  }

  predicate IsSpace(c: char) {
    c == ' ' || '\t' <= c <= '\r'
  }

  /** atoi. */
  function Atoi(s: string): int
    decreases |s|
  {
    if s == "" then 0
    else if IsSpace(s[0]) then Atoi(s[1..])
    else if s[0] == '-' then 0 - Digits(s[1..], 0)
    else if s[0] == '+' then Digits(s[1..], 0)
    else Digits(s, 0)
  }

  lemma {:induction false} DigitsAppend(a: string, b: string, acc: nat)
    requires AllDigits(a)
    ensures Digits(a + b, acc) == Digits(b, Digits(a, acc))
    decreases |a|
  {
    if a == "" {
      assert a + b == b;
    } else {
      assert (a + b)[1..] == a[1..] + b;
      DigitsAppend(a[1..], b, 10 * acc + (a[0] as int - '0' as int));
    }
  }

  lemma {:induction false} DecimalRoundTrip(n: nat)
    ensures Digits(Decimal(n), 0) == n
  {
    if n >= 10 {
      var d := [('0' as int + n % 10) as char];
      DecimalRoundTrip(n / 10);
      DigitsAppend(Decimal(n / 10), d, 0);
      assert d[1..] == "";
    } else {
      assert Decimal(n)[1..] == "";
    }
  }

  // ------------------------------------------------------------- directory text

  datatype Entry = Entry(name: string, ino: nat)

  function Padding(ino: nat): string {
    if |Decimal(ino)| < 4 then seq(4 - |Decimal(ino)|, _ => ' ') else ""
  }

  /** A name, the inode number padded to width 4, and a space. */
  function EntryText(e: Entry): string {
    e.name + Padding(e.ino) + Decimal(e.ino) + " "
  }

  function Text(entries: seq<Entry>): string {
    if entries == [] then "" else EntryText(entries[0]) + Text(entries[1..])
  }

  predicate IsEntry(e: Entry) {
    IsWord(e.name) && e.ino < 1000
  }

  // --------------------------------------------------------------------- lookup

  /** The name stands at position i with a space on both sides, the start counting as one. */
  predicate MatchAt(buf: string, name: string, i: nat) {
    && i + |name| < |buf|
    && buf[i..i + |name|] == name
    && buf[i + |name|] == ' '
    && (i == 0 || buf[i - 1] == ' ')
  }

  /** The position of the first match is i. */
  predicate FirstMatch(buf: string, name: string, i: nat) {
    MatchAt(buf, name, i) && forall j: nat :: j < i ==> !MatchAt(buf, name, j)
  }

  /** What dir_do_lookup gives: the number after the first match, or -1 if there is none. */
  ghost predicate IsAnswer(buf: string, name: string, r: int) {
    || (exists i: nat :: FirstMatch(buf, name, i) && r == Atoi(buf[i + |name|..]))
    || (r == -1 && forall i: nat :: !MatchAt(buf, name, i))
  }

  lemma AnswerIsUnique(buf: string, name: string, r: int, r': int)
    requires IsAnswer(buf, name, r) && IsAnswer(buf, name, r')
    ensures r == r'
  {
    if i: nat :| FirstMatch(buf, name, i) && r == Atoi(buf[i + |name|..]) {
      var j: nat :| FirstMatch(buf, name, j) && r' == Atoi(buf[j + |name|..]);
      assert i == j;
    }
  }

  /** dir_do_lookup. A name longer than the text is outside its domain: the loop bound would
      wrap around. */
  method Lookup(buf: string, name: string) returns (r: int)
    requires |name| <= |buf|
    ensures IsAnswer(buf, name, r)
  {
    var i := 0;
    while i < |buf| - |name|
      invariant 0 <= i && forall j: nat :: j < i ==> !MatchAt(buf, name, j)
    {
      if buf[i..i + |name|] == name && buf[i + |name|] == ' ' && (i == 0 || buf[i - 1] == ' ') {
        assert FirstMatch(buf, name, i);
        return Atoi(buf[i + |name|..]);
      }
      i := i + 1;
    }
    return -1;
  }

  /** What a lookup should find. */
  function Wanted(entries: seq<Entry>, name: string): int {
    if entries == [] then -1
    else if entries[0].name == name then entries[0].ino
    else Wanted(entries[1..], name)
  }

  /** What it finds. A name that reads like the inode number of an earlier entry is taken for
      that number, and what follows it is read as the answer. */
  function Found(entries: seq<Entry>, name: string): int {
    if entries == [] then -1
    else if entries[0].name == name then entries[0].ino
    else if Decimal(entries[0].ino) == name then Atoi(" " + Text(entries[1..]))
    else Found(entries[1..], name)
  }

  /** An entry before the first one with the name has the name as its inode number. */
  predicate TakenForNumber(entries: seq<Entry>, name: string) {
    && entries != []
    && entries[0].name != name
    && (Decimal(entries[0].ino) == name || TakenForNumber(entries[1..], name))
  }

  lemma NumberText(e: Entry, rest: string)
    requires e.ino < 1000
    ensures Atoi(Padding(e.ino) + Decimal(e.ino) + " " + rest) == e.ino
  {
    var d := Decimal(e.ino);
    DecimalLength(e.ino);
    SkipSpaces(4 - |d|, d + (" " + rest));
    assert Padding(e.ino) + d + " " + rest == seq(4 - |d|, _ => ' ') + (d + (" " + rest));
    DecimalRoundTrip(e.ino);
    DigitsAppend(d, " " + rest, 0);
    assert (d + (" " + rest))[0] == d[0];
  }

  lemma {:induction false} SkipSpaces(n: nat, s: string)
    ensures Atoi(seq(n, _ => ' ') + s) == Atoi(s)
  {
    if n == 0 {
      assert seq(n, _ => ' ') + s == s;
    } else {
      SkipSpaces(n - 1, s);
      assert (seq(n, _ => ' ') + s)[1..] == seq(n - 1, _ => ' ') + s;
    }
  }

  lemma MatchChar(buf: string, name: string, i: nat, j: nat)
    ensures MatchAt(buf, name, i) && j < |name| ==> buf[i + j] == name[j]
  {
  }

  /** Within the text of an entry only its name and its number match. */
  lemma MatchInEntry(e: Entry, rest: string, name: string, i: nat)
    requires IsEntry(e) && IsWord(name) && i < |EntryText(e)|
    ensures MatchAt(EntryText(e) + rest, name, i) <==>
            (i == 0 && name == e.name) || (i == |e.name| + |Padding(e.ino)| && name == Decimal(e.ino))
  {
    var text, d := EntryText(e) + rest, Decimal(e.ino);
    var n, p := |e.name|, |e.name| + |Padding(e.ino)|;
    DecimalLength(e.ino);
    MatchChar(text, name, i, 0);
    if i == 0 {
      assert text[..n] == e.name && text[n] == ' ';
      MatchChar(text, name, 0, n);
      if |name| < n {
        assert text[|name|] == e.name[|name|];
      }
    } else if i < n {
      assert text[i - 1] == e.name[i - 1];
    } else if i < p || i == p + |d| {
      assert text[i] == ' ';
    } else if i == p {
      assert text[p..p + |d|] == d && text[p + |d|] == ' ' && text[p - 1] == ' ';
      MatchChar(text, name, p, |d|);
      if |name| < |d| {
        assert text[p + |name|] == d[|name|];
      }
    } else {
      assert text[i - 1] == d[i - 1 - p];
    }
  }

  /** Past an entry, matches are those of the rest. */
  lemma MatchPastEntry(e: Entry, rest: string, name: string, i: nat)
    requires i >= |EntryText(e)|
    ensures MatchAt(EntryText(e) + rest, name, i) <==> MatchAt(rest, name, i - |EntryText(e)|)
  {
    var text, n := EntryText(e) + rest, |EntryText(e)|;
    assert text[n - 1] == ' ';
    if i + |name| < |text| {
      assert text[i..i + |name|] == rest[i - n..i - n + |name|];
    }
  }

  lemma AnswerAtEntry(e: Entry, rest: string)
    requires IsEntry(e)
    ensures IsAnswer(EntryText(e) + rest, e.name, e.ino)
  {
    var text := EntryText(e) + rest;
    MatchInEntry(e, rest, e.name, 0);
    NumberText(e, rest);
    assert text[0 + |e.name|..] == Padding(e.ino) + Decimal(e.ino) + " " + rest;
    assert FirstMatch(text, e.name, 0);
  }

  lemma AnswerAtNumber(e: Entry, rest: string, name: string)
    requires IsEntry(e) && IsWord(name) && name == Decimal(e.ino) && name != e.name
    ensures IsAnswer(EntryText(e) + rest, name, Atoi(" " + rest))
  {
    var text, p := EntryText(e) + rest, |e.name| + |Padding(e.ino)|;
    MatchInEntry(e, rest, name, p);
    forall j: nat | j < p
      ensures !MatchAt(text, name, j)
    {
      MatchInEntry(e, rest, name, j);
    }
    assert text[p + |name|..] == " " + rest;
    assert FirstMatch(text, name, p);
  }

  lemma AnswerPastEntry(e: Entry, rest: string, name: string, r: int)
    requires IsEntry(e) && IsWord(name) && name != Decimal(e.ino) && name != e.name && IsAnswer(rest, name, r)
    ensures IsAnswer(EntryText(e) + rest, name, r)
  {
    var text, n := EntryText(e) + rest, |EntryText(e)|;
    forall i: nat
      ensures MatchAt(text, name, i) <==> i >= n && MatchAt(rest, name, i - n)
    {
      if i < n {
        MatchInEntry(e, rest, name, i);
      } else {
        MatchPastEntry(e, rest, name, i);
      }
    }
    if i: nat :| FirstMatch(rest, name, i) && r == Atoi(rest[i + |name|..]) {
      assert MatchAt(text, name, n + i) && FirstMatch(text, name, n + i);
      assert text[n + i + |name|..] == rest[i + |name|..];
    }
  }

  /** What a lookup gives on the text of any directory, for any word as the name. Unless the
      name is taken for a number, that is the inode of the first entry with the name, and -1 if
      there is none. */
  lemma {:induction false} LookupFinds(entries: seq<Entry>, name: string)
    requires (forall e :: e in entries ==> IsEntry(e)) && IsWord(name)
    ensures IsAnswer(Text(entries), name, Found(entries, name))
    ensures !TakenForNumber(entries, name) ==> Found(entries, name) == Wanted(entries, name)
  {
    if entries != [] {
      var e, rest := entries[0], entries[1..];
      if name == e.name {
        AnswerAtEntry(e, Text(rest));
      } else if name == Decimal(e.ino) {
        AnswerAtNumber(e, Text(rest), name);
      } else {
        LookupFinds(rest, name);
        AnswerPastEntry(e, Text(rest), name, Found(rest, name));
      }
    }
  }

  /** The name reads like an inode number. */
  ghost predicate IsNumber(name: string) {
    exists n :: 0 <= n < 1000 && Decimal(n) == name
  }

  lemma {:induction false} NamesAreNotNumbers(entries: seq<Entry>, name: string)
    requires (forall e :: e in entries ==> IsEntry(e)) && !IsNumber(name)
    ensures !TakenForNumber(entries, name)
  {
    if entries != [] {
      assert entries[0] in entries;
      NamesAreNotNumbers(entries[1..], name);
    }
  }

  /** In the directory with the one entry a and inode n, looking up the digits of n gives 0, and
      not -1. */
  lemma NumberTakenForName(n: nat)
    requires n < 1000
    ensures Wanted([Entry("a", n)], Decimal(n)) == -1 && Found([Entry("a", n)], Decimal(n)) == 0
  {
    var entries := [Entry("a", n)];
    assert Decimal(n)[0] != 'a';
    assert Text(entries[1..]) == "";
    assert " " + "" == " " && " "[1..] == "";
    assert Atoi(" ") == 0;
  }

  /** The lookup finds the inode of the first entry with the name, and -1 if there is none. */
  ghost predicate FindsWhatIsWanted(name: string) {
    forall entries {:trigger Found(entries, name)} ::
      (forall e :: e in entries ==> IsEntry(e)) ==> Found(entries, name) == Wanted(entries, name)
  }

  /** For which names the lookup is right in all directories: exactly those that do not read like
      an inode number. */
  lemma LookupRightIff(name: string)
    requires IsWord(name)
    ensures FindsWhatIsWanted(name) <==> !IsNumber(name)
  {
    if IsNumber(name) {
      var n :| 0 <= n < 1000 && Decimal(n) == name;
      var entries := [Entry("a", n)];
      NumberTakenForName(n);
      assert Found(entries, name) != Wanted(entries, name);
      assert forall e :: e in entries ==> IsEntry(e);
    } else {
      forall entries: seq<Entry> | forall e :: e in entries ==> IsEntry(e)
        ensures Found(entries, name) == Wanted(entries, name)
      {
        NamesAreNotNumbers(entries, name);
        LookupFinds(entries, name);
      }
    }
  }

  /** dir_do_lookup on the text of a directory. */
  method LookupEntry(entries: seq<Entry>, name: string) returns (r: int)
    requires (forall e :: e in entries ==> IsEntry(e)) && IsWord(name) && |name| <= |Text(entries)|
    ensures r == Found(entries, name)
    ensures !IsNumber(name) ==> r == Wanted(entries, name)
  {
    if !IsNumber(name) {
      NamesAreNotNumbers(entries, name);
    }
    r := Lookup(Text(entries), name);
    LookupFinds(entries, name);
    AnswerIsUnique(Text(entries), name, r, Found(entries, name));
  }
}
