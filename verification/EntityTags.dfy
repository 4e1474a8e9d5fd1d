/** Entity tags: how a revision is printed, how `If-Match` is read back, and when
    `If-None-Match` names the tag the server holds (sections 8.8.3, 13.1.1 and 13.1.2 of
    RFC 9110). Header text is Latin-1. */
module EntityTags {
  import opened Core

  // -- Text ---------------------------------------------------------------------------

  /** What a call of `strip` takes away: `str.isspace` on Latin-1, or the double quote. */
  datatype Blank = Spaces | Quotes {
    predicate Has(c: char) {
      match this
      case Spaces => '\t' <= c <= '\r' || '\U{1c}' <= c <= ' ' || c == '\U{85}' || c == '\U{a0}'
      case Quotes => c == '\"'
    }
  }

  function LStrip(s: string, drop: Blank): string {
    if s == [] || !drop.Has(s[0]) then s else LStrip(s[1..], drop)
  }

  function RStrip(s: string, drop: Blank): string {
    if s == [] || !drop.Has(s[|s| - 1]) then s else RStrip(s[..|s| - 1], drop)
  }

  function Strip(s: string, drop: Blank): string { RStrip(LStrip(s, drop), drop) }

  predicate Digit(c: char) { '0' <= c <= '9' }

  /** `str(n)`. */
  function Print(n: nat): (s: string)
    ensures s != [] && forall i | 0 <= i < |s| :: Digit(s[i])
  {
    (if n < 10 then [] else Print(n / 10)) + ['0' + (n % 10) as char]
  }

  /** `int(s)` on decimal digits. */
  function Read(s: string): nat
    requires forall i | 0 <= i < |s| :: Digit(s[i])
  {
    if s == [] then 0 else assert Digit(s[|s| - 1]); 10 * Read(s[..|s| - 1]) + (s[|s| - 1] as int - '0' as int)
  }

  lemma {:induction false} ReadPrint(n: nat)
    ensures Read(Print(n)) == n
  {
    var s := Print(n);
    assert s[..|s| - 1] == if n < 10 then [] else Print(n / 10);
    if n >= 10 { ReadPrint(n / 10); }
  }

  /** `str.isdigit` on Latin-1 also accepts the three superscripts, which `int` refuses. */
  predicate IsDigitChar(c: char) { Digit(c) || c in {'\U{b2}', '\U{b3}', '\U{b9}'} }

  /** `s.rpartition(sep)`: the text before and after the last `sep`, if there is one. */
  function RPartition(s: string, sep: char): Option<(string, string)> {
    if s == [] then None
    else if s[|s| - 1] == sep then Some((s[..|s| - 1], []))
    else
      match RPartition(s[..|s| - 1], sep)
      case None => None
      case Some(p) => Some((p.0, p.1 + [s[|s| - 1]]))
  }

  /** The last separator is where it is: text after it has none. */
  lemma {:induction false} RPartitionOf(before: string, sep: char, after: string)
    requires sep !in after
    ensures RPartition(before + [sep] + after, sep) == Some((before, after))
  {
    var s := before + [sep] + after;
    if after == [] {
      assert s[..|s| - 1] == before;
    } else {
      assert s[..|s| - 1] == before + [sep] + after[..|after| - 1];
      RPartitionOf(before, sep, after[..|after| - 1]);
      assert after == after[..|after| - 1] + [s[|s| - 1]];
    }
  }

  // -- Printing and reading a tag -------------------------------------------------------

  /** The tag of a state: quoted account, dot, revision. */
  function ETag(account: string, revision: nat): string { Tag(account, Print(revision)) }

  function Tag(account: string, digits: string): string {
    "\"" + account + "." + digits + "\""
  }

  /** What an `If-Match` header turns into. `Crash` is `int` raising, on a superscript or on more
      digits than the interpreter converts. */
  datatype IfMatch = Absent | Revision(revision: nat) | Refused | Crash

  function RevisionFromIfMatch(header: Option<string>, account: string): IfMatch {
    match header
    case None => Absent
    case Some(text) =>
      var tag := Strip(text, Spaces);
      if "W/" <= tag then Refused
      else
        match RPartition(Strip(tag, Quotes), '.')
        case None => Refused
        case Some((name, revision)) => if name != account then Refused else ReadRevision(revision)
  }

  /** How many digits `int` reads before it raises: the interpreter's default. */
  const MAX_DIGITS := 4300

  function ReadRevision(text: string): IfMatch {
    if text == [] || exists i | 0 <= i < |text| :: !IsDigitChar(text[i]) then Refused
    else if |text| > MAX_DIGITS || exists i | 0 <= i < |text| :: !Digit(text[i]) then Crash
    else Revision(Read(text))
  }

  /** A tag this server printed for account `a`, presented by account `b`, is read back as its
      revision exactly when `b` is `a` without its leading quotes; otherwise it is refused.
      So printing and reading undo each other for every id that does not start with a quote,
      and there no other account is ever let in. A revision of more digits than `int` reads is
      printed and cannot be read. */
  lemma PrintedTagIsReadBack(a: string, revision: nat, b: string)
    ensures RevisionFromIfMatch(Some(ETag(a, revision)), b)
         == if b != LStrip(a, Quotes) then Refused
            else if |Print(revision)| <= MAX_DIGITS then Revision(revision)
            else Crash
  {
    var digits := Print(revision);
    TagIsTrimmed(a, digits);
    TagWithoutQuotes(a, digits);
    RPartitionOf(LStrip(a, Quotes), '.', digits);
    PrintedIsRead(revision);
    assert Tag(a, digits)[0] == '\"';
  }

  lemma PrintedIsRead(revision: nat)
    ensures '.' !in Print(revision)
    ensures ReadRevision(Print(revision)) == if |Print(revision)| <= MAX_DIGITS then Revision(revision) else Crash
  {
    ReadPrint(revision);
    assert forall i | 0 <= i < |Print(revision)| :: Digit(Print(revision)[i]);
  }

  lemma TagIsTrimmed(a: string, digits: string)
    ensures Strip(Tag(a, digits), Spaces) == Tag(a, digits)
  {}

  lemma TagWithoutQuotes(a: string, digits: string)
    requires digits != [] ==> !Quotes.Has(digits[|digits| - 1])
    ensures Strip(Tag(a, digits), Quotes) == LStrip(a, Quotes) + ['.'] + digits
  {
    var tail := "." + digits + "\"";
    TagIsOpened(a, digits);
    LStripThrough("\"" + a, tail, Quotes);
    OneQuoteOpens(a);
    RStripsOneQuote(LStrip(a, Quotes), digits);
  }

  lemma TagIsOpened(a: string, digits: string)
    ensures Tag(a, digits) == ("\"" + a) + ("." + digits + "\"")
  {}

  lemma OneQuoteOpens(a: string)
    ensures LStrip("\"" + a, Quotes) == LStrip(a, Quotes)
  {
    assert ("\"" + a)[1..] == a;
  }

  lemma RStripsOneQuote(bare: string, digits: string)
    requires digits != [] ==> !Quotes.Has(digits[|digits| - 1])
    ensures RStrip(bare + ("." + digits + "\""), Quotes) == bare + ['.'] + digits
  {
    var body := bare + ['.'] + digits;
    assert bare + ("." + digits + "\"") == body + "\"";
    assert (body + "\"")[..|body|] == body;
    assert body[|body| - 1] == if digits == [] then '.' else digits[|digits| - 1];
    assert RStrip(body, Quotes) == body;
  }

  lemma {:induction false} LStripThrough(s: string, rest: string, drop: Blank)
    requires rest != [] && !drop.Has(rest[0])
    ensures LStrip(s + rest, drop) == LStrip(s, drop) + rest
  {
    if s == [] {
      assert s + rest == rest;
    } else {
      assert (s + rest)[1..] == s[1..] + rest;
      LStripThrough(s[1..], rest, drop);
    }
  }

  // -- A refusal that is not made -----------------------------------------------------------

  predicate Superscript(c: char) { IsDigitChar(c) && !Digit(c) }

  /** What `isdigit` accepts and `int` does not: digits, a superscript or more among them, or more
      of them than `int` reads. */
  predicate Unreadable(x: string) {
    && (forall i | 0 <= i < |x| :: IsDigitChar(x[i]))
    && (|x| > 4300 || exists i | 0 <= i < |x| :: Superscript(x[i]))
  }

  /** The header's own text, as far as the account and the revision it names. */
  function Unquoted(text: string): string { Strip(Strip(text, Spaces), Quotes) }

  lemma {:induction false} RPartitionParts(s: string, sep: char)
    ensures var p := RPartition(s, sep);
      p.Some? ==> s == p.value.0 + [sep] + p.value.1 && sep !in p.value.1
  {
    if s != [] && s[|s| - 1] != sep {
      RPartitionParts(s[..|s| - 1], sep);
      assert s == s[..|s| - 1] + [s[|s| - 1]];
    }
  }

  lemma UnreadableFails(x: string)
    ensures ReadRevision(x) == Crash <==> Unreadable(x)
  {}

  /** Every `If-Match` header is promised a revision or a refusal. For every account and every
      header, the promise is broken if and only if the header is no weak tag and names the
      account, a dot, and a revision that `isdigit` accepts and `int` does not. */
  lemma PromiseBrokenExactlyWhen(text: string, account: string)
    ensures RevisionFromIfMatch(Some(text), account) == Crash <==>
      && !("W/" <= Strip(text, Spaces))
      && account + ['.'] <= Unquoted(text)
      && Unreadable(Unquoted(text)[|account| + 1..])
  {
    var bare, n := Unquoted(text), |account| + 1;
    RPartitionParts(bare, '.');
    if RPartition(bare, '.').Some? { UnreadableFails(RPartition(bare, '.').value.1); }
    if account + ['.'] <= bare && Unreadable(bare[n..]) {
      assert bare == account + ['.'] + bare[n..];
      RPartitionOf(account, '.', bare[n..]);
    }
  }

  /** A header is read as a revision exactly when it is no weak tag and names the account, a dot and
      the decimal digits of that revision, no more of them than `int` reads. With no header nothing
      is read, and what is not read and does not break the promise is refused. */
  lemma ReadExactlyWhen(text: string, account: string, n: nat)
    ensures RevisionFromIfMatch(None, account) == Absent && RevisionFromIfMatch(Some(text), account) != Absent
    ensures RevisionFromIfMatch(Some(text), account) == Revision(n) <==>
      && !("W/" <= Strip(text, Spaces))
      && account + ['.'] <= Unquoted(text)
      && Spells(Unquoted(text)[|account| + 1..], n)
  {
    var bare := Unquoted(text);
    RPartitionParts(bare, '.');
    if account + ['.'] <= bare && Spells(bare[|account| + 1..], n) {
      assert bare == account + ['.'] + bare[|account| + 1..];
      RPartitionOf(account, '.', bare[|account| + 1..]);
    }
  }

  /** Decimal digits of a number. */
  predicate Spells(x: string, n: nat) {
    1 <= |x| <= 4300 && (forall i | 0 <= i < |x| :: Digit(x[i])) && Read(x) == n
  }

  /** Stripping takes blanks off both ends and nothing else. */
  lemma StripTakesTheEnds(s: string, drop: Blank) returns (i: nat, j: nat)
    ensures i <= j <= |s| && Strip(s, drop) == s[i..j]
    ensures forall k | 0 <= k < i || j <= k < |s| :: drop.Has(s[k])
    ensures i < j ==> !drop.Has(s[i]) && !drop.Has(s[j - 1])
  {
    i := LStripAt(s, drop);
    var n := RStripAt(s[i..], drop);
    j := i + n;
    assert s[i..][..n] == s[i..j];
    assert forall k | j <= k < |s| :: s[k] == s[i..][k - i];
  }

  lemma {:induction false} LStripAt(s: string, drop: Blank) returns (i: nat)
    ensures i <= |s| && LStrip(s, drop) == s[i..]
    ensures (forall k | 0 <= k < i :: drop.Has(s[k])) && (i < |s| ==> !drop.Has(s[i]))
  {
    i := 0;
    if s != [] && drop.Has(s[0]) {
      var m := LStripAt(s[1..], drop);
      i := m + 1;
      assert s[1..][m..] == s[i..];
      assert forall k | 1 <= k < i :: s[k] == s[1..][k - 1];
    }
  }

  lemma {:induction false} RStripAt(s: string, drop: Blank) returns (j: nat)
    ensures j <= |s| && RStrip(s, drop) == s[..j]
    ensures (forall k | j <= k < |s| :: drop.Has(s[k])) && (j > 0 ==> !drop.Has(s[j - 1]))
  {
    j := |s|;
    if s != [] && drop.Has(s[|s| - 1]) {
      var n := |s| - 1;
      j := RStripAt(s[..n], drop);
      assert s[..n][..j] == s[..j];
      assert forall k | j <= k < n :: s[k] == s[..n][k];
    }
  }

  /** In particular of tags shaped as this server prints them. */
  lemma TagBreaksPromiseExactlyWhen(account: string, x: string)
    requires LStrip(account, Quotes) == account && '\"' !in x
    ensures RevisionFromIfMatch(Some(Tag(account, x)), account) == Crash <==> Unreadable(x)
  {
    TagIsTrimmed(account, x);
    TagWithoutQuotes(account, x);
    PromiseBrokenExactlyWhen(Tag(account, x), account);
    assert (account + ['.'] + x)[|account| + 1..] == x;
    assert account + ['.'] <= account + ['.'] + x;
    assert Tag(account, x)[0] == '\"';
  }

  /** Text of one digit repeated. */
  function Ones(n: nat): (s: string)
    ensures |s| == n && forall i | 0 <= i < n :: s[i] == '1'
  {
    seq(n, _ => '1')
  }

  /** One such header: account `a`, and one digit more than `int` reads. */
  lemma TooManyDigitsAreNotRefused()
    ensures RevisionFromIfMatch(Some(Tag("a", Ones(MAX_DIGITS + 1))), "a") == Crash
  {
    TagBreaksPromiseExactlyWhen("a", Ones(MAX_DIGITS + 1));
  }

  /** Another: account `a`, revision superscript two. */
  lemma SuperscriptIsNotRefused()
    ensures RevisionFromIfMatch(Some("\"a.\U{b2}\""), "a") == Crash
  {
    assert "\"a.\U{b2}\"" == Tag("a", "\U{b2}");
    assert Superscript("\U{b2}"[0]);
    TagBreaksPromiseExactlyWhen("a", "\U{b2}");
  }

  /** Distinct (account, revision) pairs print distinct tags. */
  lemma TagsAreDistinct(a: string, m: nat, b: string, n: nat)
    requires ETag(a, m) == ETag(b, n)
    ensures a == b && m == n
  {
    RPartitionOf(a, '.', Print(m));
    RPartitionOf(b, '.', Print(n));
    BodyOfATag(a, Print(m));
    BodyOfATag(b, Print(n));
    ReadPrint(m);
    ReadPrint(n);
  }

  lemma BodyOfATag(a: string, digits: string)
    ensures |Tag(a, digits)| >= 2
    ensures Tag(a, digits)[1..|Tag(a, digits)| - 1] == a + ['.'] + digits
  {}

  // -- If-None-Match --------------------------------------------------------------------

  /** `s.split(",")`. */
  function Split(s: string): (r: seq<string>)
    ensures r != []
  {
    if s == [] then [[]]
    else
      var rest := Split(s[1..]);
      if s[0] == ',' then [[]] + rest else [[s[0]] + rest[0]] + rest[1..]
  }

  /** Whether `If-None-Match` names the tag: one of its pieces is `*` or is the tag. */
  predicate Matches(header: Option<string>, etag: string) {
    header.Some? && AnyNames(Split(header.value), etag)
  }

  predicate AnyNames(pieces: seq<string>, etag: string) {
    exists i | 0 <= i < |pieces| :: Names(pieces[i], etag)
  }

  predicate Names(piece: string, etag: string) {
    IsStar(piece) || Strip(piece, Spaces) == etag
  }

  predicate IsStar(piece: string) { Strip(piece, Spaces) == ['*'] }

  lemma {:induction false} SplitHasNoCommas(s: string, i: nat)
    requires i < |Split(s)|
    ensures ',' !in Split(s)[i]
    ensures ',' !in s ==> Split(s) == [s]
    ensures ',' in s ==> |Split(s)| > 1
  {
    if s != [] {
      var rest := Split(s[1..]);
      SplitHasNoCommas(s[1..], 0);
      if s[0] == ',' {
        if i > 0 { SplitHasNoCommas(s[1..], i - 1); }
      } else {
        assert s == [s[0]] + s[1..];
        if i > 0 {
          SplitHasNoCommas(s[1..], i);
        }
      }
    }
  }

  /** Pieces with commas between them. */
  function Joined(pieces: seq<string>): string {
    if pieces == [] then "" else if |pieces| == 1 then pieces[0] else pieces[0] + "," + Joined(pieces[1..])
  }

  /** Splitting loses nothing. */
  lemma {:induction false} SplitJoins(s: string)
    ensures Joined(Split(s)) == s
  {
    if s != [] {
      var rest := Split(s[1..]);
      SplitJoins(s[1..]);
      if s[0] == ',' {
        assert ([[]] + rest)[1..] == rest;
      } else {
        assert ([[s[0]] + rest[0]] + rest[1..])[1..] == rest[1..];
      }
    }
  }

  /** Text without commas, put after, joins the last piece. */
  lemma {:induction false} SplitBefore(s: string, tail: string)
    requires ',' !in tail
    ensures var p := Split(s); Split(s + tail) == p[..|p| - 1] + [p[|p| - 1] + tail]
  {
    if s == [] {
      assert s + tail == tail;
      SplitHasNoCommas(tail, 0);
    } else {
      assert (s + tail)[1..] == s[1..] + tail;
      SplitBefore(s[1..], tail);
      var p, rest := Split(s), Split(s[1..]);
      if s[0] == ',' {
        assert p[..|p| - 1] == [[]] + rest[..|rest| - 1];
      } else if |rest| > 1 {
        assert p[..|p| - 1] == [[s[0]] + rest[0]] + rest[1..|rest| - 1];
      } else {
        assert [s[0]] + (rest[0] + tail) == ([s[0]] + rest[0]) + tail;
      }
    }
  }

  /** An account id with a piece between two commas that is only a star: such an id's tag
      contains the wildcard of section 13.1.2. */
  predicate WildcardInside(account: string) {
    exists i | 0 < i < |Split(account)| - 1 :: Strip(Split(account)[i], Spaces) == ['*']
  }

  /** Sending back a tag of the same account matches the current one exactly when the
      revisions agree and the id has no comma, or the id hides a wildcard. */
  lemma MatchesItsOwnRevision(a: string, m: nat, n: nat)
    ensures Matches(Some(ETag(a, m)), ETag(a, n))
       <==> (',' !in a && m == n) || WildcardInside(a)
  {
    if ETag(a, m) == ETag(a, n) { TagsAreDistinct(a, m, a, n); }
    MatchesItself(a, Print(m), Print(n));
  }

  lemma MatchesItself(a: string, x: string, y: string)
    requires ',' !in x
    ensures Matches(Some(Tag(a, x)), Tag(a, y))
       <==> (',' !in a && Tag(a, x) == Tag(a, y)) || WildcardInside(a)
  {
    PiecesOfATag(a, x);
    if ',' !in a {
      SplitHasNoCommas(a, 0);
      TagIsTrimmed(a, x);
      assert |Tag(a, x)| > 1;
    } else {
      var p, q := Split(a), Split(Tag(a, x));
      forall i | 0 <= i < |q|
        ensures Names(q[i], Tag(a, y)) <==> 0 < i < |p| - 1 && IsStar(p[i])
      {
        PieceIsNotATag(a, x, y, i);
        EndsAreNotStars(q, i);
      }
    }
  }

  lemma EndsAreNotStars(q: seq<string>, i: nat)
    requires i < |q| && q[0] != [] && q[0][0] == '\"'
    requires q[|q| - 1] != [] && q[|q| - 1][|q[|q| - 1]| - 1] == '\"'
    ensures (i == 0 || i == |q| - 1) ==> !IsStar(q[i])
  {
    if i == 0 { StripKeepsHead(q[0]); }
    if i == |q| - 1 { LStripKeepsLast(q[i]); }
  }

  /** A printed tag splits as its account does, with the quotes and the revision at the ends. */
  lemma PiecesOfATag(a: string, x: string)
    requires ',' !in x
    ensures var p, q := Split(a), Split(Tag(a, x));
      && |q| == |p|
      && (forall i | 0 < i < |p| - 1 :: q[i] == p[i])
      && q[0] != [] && q[0][0] == '\"'
      && q[|q| - 1] != [] && q[|q| - 1][|q[|q| - 1]| - 1] == '\"'
      && (',' !in a ==> q == [Tag(a, x)])
  {
    var tail := "." + x + "\"";
    assert Tag(a, x) == ("\"" + a) + tail;
    SplitBefore("\"" + a, tail);
    assert ("\"" + a)[1..] == a;
    assert Split("\"" + a) == [['\"'] + Split(a)[0]] + Split(a)[1..];
    if ',' !in a { SplitHasNoCommas(Tag(a, x), 0); }
  }

  lemma PieceIsNotATag(a: string, x: string, y: string, i: nat)
    requires ',' in a && i < |Split(Tag(a, x))|
    ensures Strip(Split(Tag(a, x))[i], Spaces) != Tag(a, y)
  {
    SplitHasNoCommas(Tag(a, x), i);
    var k :| 0 <= k < |a| && a[k] == ',';
    assert Tag(a, y)[k + 1] == ',';
    var piece := Split(Tag(a, x))[i];
    LStripKeeps(piece, Spaces);
    RStripKeeps(LStrip(piece, Spaces), Spaces);
  }

  lemma {:induction false} LStripKeeps(s: string, drop: Blank)
    ensures forall c | c in LStrip(s, drop) :: c in s
  {
    if s != [] && drop.Has(s[0]) { LStripKeeps(s[1..], drop); }
  }

  lemma {:induction false} RStripKeeps(s: string, drop: Blank)
    ensures forall c | c in RStrip(s, drop) :: c in s
  {
    if s != [] && drop.Has(s[|s| - 1]) { RStripKeeps(s[..|s| - 1], drop); }
  }

  lemma {:induction false} StripKeepsHead(s: string)
    requires s != [] && !Spaces.Has(s[0])
    ensures RStrip(s, Spaces) != [] && RStrip(s, Spaces)[0] == s[0]
  {
    if |s| > 1 && Spaces.Has(s[|s| - 1]) { StripKeepsHead(s[..|s| - 1]); }
  }

  lemma {:induction false} LStripKeepsLast(s: string)
    requires s != [] && !Spaces.Has(s[|s| - 1])
    ensures var r := Strip(s, Spaces); r != [] && r[|r| - 1] == s[|s| - 1]
  {
    if Spaces.Has(s[0]) { LStripKeepsLast(s[1..]); }
  }

  predicate AllBlank(s: string) { forall i | 0 <= i < |s| :: Spaces.Has(s[i]) }

  /** Text that neither starts nor ends with a blank. */
  predicate Trimmed(s: string) { s != [] && !Spaces.Has(s[0]) && !Spaces.Has(s[|s| - 1]) }

  /** The text with blanks before and after it, or none. */
  ghost predicate Padded(piece: string, text: string) {
    exists before, after :: AllBlank(before) && AllBlank(after) && piece == before + text + after
  }

  lemma PaddedStrips(before: string, text: string, after: string)
    requires Trimmed(text) && AllBlank(before) && AllBlank(after)
    ensures Strip(before + text + after, Spaces) == text
  {
    var piece, i := before + text + after, |before|;
    var a, b := StripTakesTheEnds(piece, Spaces);
    assert piece[i] == text[0] && piece[i + |text| - 1] == text[|text| - 1];
    assert forall k | 0 <= k < i :: piece[k] == before[k];
    assert forall k | i + |text| <= k < |piece| :: piece[k] == after[k - i - |text|];
    assert a == i && b == i + |text|;
    assert piece[a..b] == text;
  }

  lemma StrippedIs(piece: string, text: string)
    requires Trimmed(text)
    ensures Strip(piece, Spaces) == text <==> Padded(piece, text)
  {
    var a, b := StripTakesTheEnds(piece, Spaces);
    if Strip(piece, Spaces) == text {
      assert AllBlank(piece[..a]) && AllBlank(piece[b..]) && piece == piece[..a] + text + piece[b..];
    }
    if before, after :| AllBlank(before) && AllBlank(after) && piece == before + text + after {
      PaddedStrips(before, text, after);
    }
  }

  /** A piece of a list names the tag: a star or the tag itself, with blanks around it. */
  ghost predicate NamesTag(piece: string, etag: string) { Padded(piece, "*") || Padded(piece, etag) }

  lemma {:induction false} JoinedIsSplit(pieces: seq<string>)
    requires pieces != [] && forall k | 0 <= k < |pieces| :: ',' !in pieces[k]
    ensures Split(Joined(pieces)) == pieces
  {
    SplitOf(pieces[0], if |pieces| == 1 then "" else Joined(pieces[1..]));
    if |pieces| > 1 { JoinedIsSplit(pieces[1..]); }
  }

  /** A list of texts names the tag exactly when one of them is a star or the tag, with blanks around
      it. */
  lemma ListMatchesExactlyWhen(pieces: seq<string>, etag: string)
    requires pieces != [] && forall k | 0 <= k < |pieces| :: ',' !in pieces[k]
    requires Trimmed(etag)
    ensures Matches(Some(Joined(pieces)), etag) <==> exists k :: 0 <= k < |pieces| && NamesTag(pieces[k], etag)
  {
    JoinedIsSplit(pieces);
    forall k | 0 <= k < |pieces|
      ensures Names(pieces[k], etag) <==> NamesTag(pieces[k], etag)
    {
      StrippedIs(pieces[k], etag);
      StrippedIs(pieces[k], "*");
    }
  }

  /** Every header is such a list. */
  lemma EveryHeaderIsAList(header: string)
    ensures Joined(Split(header)) == header && forall piece | piece in Split(header) :: ',' !in piece
  {
    SplitJoins(header);
    forall piece | piece in Split(header)
      ensures ',' !in piece
    {
      var i :| 0 <= i < |Split(header)| && Split(header)[i] == piece;
      SplitHasNoCommas(header, i);
    }
  }

  /** A tag that was lost on the way, sent back as an empty header, matches nothing. */
  lemma EmptyMatchesNothing(a: string, n: nat)
    ensures !Matches(Some(""), ETag(a, n))
  {
    assert Split("") == [[]] && Strip([], Spaces) == [];
    assert |Tag(a, Print(n))| > 0;
  }

  lemma {:induction false} SplitOf(piece: string, rest: string)
    requires ',' !in piece
    ensures Split(piece + "," + rest) == [piece] + Split(rest)
    ensures Split(piece) == [piece]
  {
    SplitHasNoCommas(piece, 0);
    if piece == [] {
      assert ([] + "," + rest)[1..] == rest;
    } else {
      assert (piece + "," + rest)[1..] == piece[1..] + "," + rest;
      SplitOf(piece[1..], rest);
    }
  }

  /** Two concrete ids the general statements single out: one whose tag matches every
      revision, and one whose own tag it may not use. */
  lemma OddAccounts()
    ensures Matches(Some(ETag("a,*,b", 3)), ETag("a,*,b", 7))
    ensures RevisionFromIfMatch(Some(ETag("\"b", 5)), "\"b") == Refused
    ensures RevisionFromIfMatch(Some(ETag("\"b", 5)), "b") == Revision(5)
  {
    StarBetweenCommas();
    MatchesItsOwnRevision("a,*,b", 3, 7);
    LeadingQuote();
    PrintedTagIsReadBack("\"b", 5, "\"b");
    PrintedTagIsReadBack("\"b", 5, "b");
  }

  lemma StarBetweenCommas()
    ensures WildcardInside("a,*,b")
  {
    SplitOf("b", "");
    SplitOf("*", "b");
    SplitOf("a", "*,b");
    assert "a,*,b" == "a" + "," + "*,b" && "*,b" == "*" + "," + "b";
    assert Strip(Split("a,*,b")[1], Spaces) == "*";
  }

  lemma LeadingQuote()
    ensures LStrip("\"b", Quotes) == "b" && "\"b" != "b" && |Print(5)| <= MAX_DIGITS
  {
    assert "\"b"[1..] == "b";
    assert |Print(5)| == 1;
  }
}
