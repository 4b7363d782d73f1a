// The NMEA reader of the GPS module (android/gps/gps_qemu.c): lines are put together one
// byte at a time in a fixed buffer, and a complete sentence is cut into tokens.
module Nmea {
  import opened Bytes

  const NEWLINE: Byte := 10
  const RETURN: Byte := 13
  const DOLLAR: Byte := 36
  const STAR: Byte := 42
  const COMMA: Byte := 44

  const MAX_SIZE: nat := 83
  const MAX_TOKENS: nat := 16

  // ------------------------------------------------------------------ lines

  predicate Lacks(s: seq<Byte>, b: Byte) {
    forall i :: 0 <= i < |s| ==> s[i] != b
  }

  predicate AllLack(lines: seq<seq<Byte>>, b: Byte) {
    forall i :: 0 <= i < |lines| ==> Lacks(lines[i], b)
  }

  // Every line followed by a newline.
  function Unlines(lines: seq<seq<Byte>>): seq<Byte> {
    if lines == [] then [] else lines[0] + [NEWLINE] + Unlines(lines[1..])
  }

  // Every byte stream is some complete lines and the beginning of one more.
  lemma {:induction false} EveryStreamHasLines(s: seq<Byte>) returns (lines: seq<seq<Byte>>, rest: seq<Byte>)
    ensures s == Unlines(lines) + rest && AllLack(lines, NEWLINE) && Lacks(rest, NEWLINE)
  {
    if s == [] {
      lines, rest := [], [];
    } else {
      lines, rest := EveryStreamHasLines(s[1..]);
      if s[0] == NEWLINE {
        assert s == [] + [NEWLINE] + Unlines(lines) + rest;
        lines := [[]] + lines;
      } else if lines == [] {
        rest := [s[0]] + rest;
      } else {
        assert s == [s[0]] + (lines[0] + [NEWLINE] + Unlines(lines[1..]) + rest);
        assert s == [s[0]] + lines[0] + [NEWLINE] + Unlines(lines[1..]) + rest;
        lines := [[s[0]] + lines[0]] + lines[1..];
      }
    }
  }

  // ----------------------------------------------------------------- reader

  // What is in the buffer, whether the rest of the line is dropped, and the sentences so
  // far, each with its newline.
  datatype Reader = Reader(text: seq<Byte>, overflow: bool, sentences: seq<seq<Byte>>)

  const Empty: Reader := Reader([], false, [])

  function Step(r: Reader, c: Byte): Reader {
    if r.overflow then r.(overflow := c != NEWLINE)
    else if |r.text| >= MAX_SIZE then r.(overflow := true, text := [])
    else if c == NEWLINE then r.(text := [], sentences := r.sentences + [r.text + [c]])
    else r.(text := r.text + [c])
  }

  function Feed(r: Reader, s: seq<Byte>): Reader
    decreases |s|
  {
    if s == [] then r else Feed(Step(r, s[0]), s[1..])
  }

  lemma {:induction false} FeedAppend(r: Reader, s: seq<Byte>, t: seq<Byte>)
    ensures Feed(r, s + t) == Feed(Feed(r, s), t)
    decreases |s|
  {
    if s == [] {
      assert s + t == t;
    } else {
      FeedAppend(Step(r, s[0]), s[1..], t);
      assert (s + t)[1..] == s[1..] + t;
    }
  }

  // The sentences among some lines; swallow: the first line is dropped. A line as long as
  // the buffer takes the following one with it, since its newline only starts the overflow.
  function Kept(lines: seq<seq<Byte>>, swallow: bool): seq<seq<Byte>> {
    if lines == [] then []
    else if !swallow && |lines[0]| < MAX_SIZE then [lines[0] + [NEWLINE]] + Kept(lines[1..], false)
    else Kept(lines[1..], !swallow && |lines[0]| == MAX_SIZE)
  }

  function SwallowsNext(lines: seq<seq<Byte>>, swallow: bool): bool {
    if lines == [] then swallow else SwallowsNext(lines[1..], !swallow && |lines[0]| == MAX_SIZE)
  }

  // Before a line that is to be dropped, or not.
  predicate Fresh(r: Reader, swallow: bool) {
    r.text == [] && r.overflow == swallow
  }

  lemma {:induction false} FeedDropped(r: Reader, s: seq<Byte>)
    requires r.overflow && Lacks(s, NEWLINE)
    ensures Feed(r, s) == r
  {
    if s != [] {
      FeedDropped(r, s[1..]);
    }
  }

  lemma {:induction false} FeedFits(r: Reader, s: seq<Byte>)
    requires !r.overflow && Lacks(s, NEWLINE) && |r.text| + |s| <= MAX_SIZE
    ensures Feed(r, s) == r.(text := r.text + s)
    decreases |s|
  {
    if s == [] {
      assert r.text + s == r.text;
    } else {
      FeedFits(Step(r, s[0]), s[1..]);
      assert r.text + [s[0]] + s[1..] == r.text + s;
    }
  }

  // The part of a line after which the reader has seen no newline yet.
  lemma FeedPart(r: Reader, s: seq<Byte>)
    requires Fresh(r, false) && Lacks(s, NEWLINE)
    ensures Feed(r, s) == if |s| <= MAX_SIZE then r.(text := s) else r.(overflow := true)
  {
    if |s| <= MAX_SIZE {
      FeedFits(r, s);
      assert [] + s == s;
    } else {
      var a, b := s[..MAX_SIZE], s[MAX_SIZE..];
      assert s == a + b;
      FeedAppend(r, a, b);
      FeedFits(r, a);
      FeedDropped(Step(Feed(r, a), b[0]), b[1..]);
    }
  }

  lemma FeedLine(r: Reader, line: seq<Byte>, swallow: bool)
    requires Fresh(r, swallow) && Lacks(line, NEWLINE)
    ensures var after := Feed(r, line + [NEWLINE]);
            Fresh(after, !swallow && |line| == MAX_SIZE) &&
            after.sentences == r.sentences + (if !swallow && |line| < MAX_SIZE then [line + [NEWLINE]] else [])
  {
    FeedAppend(r, line, [NEWLINE]);
    if swallow {
      FeedDropped(r, line);
    } else {
      FeedPart(r, line);
    }
    var before := Feed(r, line);
    assert Feed(before, [NEWLINE]) == Step(before, NEWLINE) by {
      assert [NEWLINE][1..] == [];
    }
  }

  // Exactly what the reader makes of any stream of lines.
  lemma {:induction false} FeedLines(r: Reader, lines: seq<seq<Byte>>, swallow: bool)
    requires Fresh(r, swallow) && AllLack(lines, NEWLINE)
    ensures Feed(r, Unlines(lines)).sentences == r.sentences + Kept(lines, swallow)
    ensures Fresh(Feed(r, Unlines(lines)), SwallowsNext(lines, swallow))
    decreases |lines|
  {
    if lines != [] {
      var line := lines[0] + [NEWLINE];
      var next := !swallow && |lines[0]| == MAX_SIZE;
      FeedAppend(r, line, Unlines(lines[1..]));
      FeedLine(r, lines[0], swallow);
      FeedLines(Feed(r, line), lines[1..], next);
      if !swallow && |lines[0]| < MAX_SIZE {
        Associative(r.sentences, [line], Kept(lines[1..], next));
      } else {
        assert r.sentences + [] == r.sentences;
      }
    }
  }

  // -------------------------------------------------- which lines are read

  // The lines that fit the buffer with their newline.
  function Short(lines: seq<seq<Byte>>): seq<seq<Byte>> {
    if lines == [] then []
    else (if |lines[0]| < MAX_SIZE then [lines[0] + [NEWLINE]] else []) + Short(lines[1..])
  }

  // Line i is swallowed by the one before it.
  predicate Swallowed(lines: seq<seq<Byte>>, swallow: bool, i: nat)
    requires i < |lines|
  {
    if i == 0 then swallow else !Swallowed(lines, swallow, i - 1) && |lines[i - 1]| == MAX_SIZE
  }

  predicate NoneLost(lines: seq<seq<Byte>>, swallow: bool) {
    forall i :: 0 <= i < |lines| && Swallowed(lines, swallow, i) ==> |lines[i]| >= MAX_SIZE
  }

  function Lost(lines: seq<seq<Byte>>, swallow: bool): nat {
    if lines == [] then 0
    else (if swallow && |lines[0]| < MAX_SIZE then 1 else 0) +
         Lost(lines[1..], !swallow && |lines[0]| == MAX_SIZE)
  }

  lemma {:induction false} LostIsMissing(lines: seq<seq<Byte>>, swallow: bool)
    ensures |Kept(lines, swallow)| + Lost(lines, swallow) == |Short(lines)|
    ensures Lost(lines, swallow) == 0 ==> Kept(lines, swallow) == Short(lines)
  {
    if lines != [] {
      LostIsMissing(lines[1..], !swallow && |lines[0]| == MAX_SIZE);
    }
  }

  lemma {:induction false} SwallowedLater(lines: seq<seq<Byte>>, swallow: bool, i: nat)
    requires 1 <= i < |lines|
    ensures Swallowed(lines, swallow, i) == Swallowed(lines[1..], !swallow && |lines[0]| == MAX_SIZE, i - 1)
  {
    if i > 1 {
      SwallowedLater(lines, swallow, i - 1);
    }
  }

  lemma {:induction false} LostIffSwallowed(lines: seq<seq<Byte>>, swallow: bool)
    ensures Lost(lines, swallow) == 0 <==> NoneLost(lines, swallow)
  {
    if lines != [] {
      var rest, next := lines[1..], !swallow && |lines[0]| == MAX_SIZE;
      LostIffSwallowed(rest, next);
      if NoneLost(lines, swallow) {
        assert Swallowed(lines, swallow, 0) == swallow;
        forall i | 0 <= i < |rest| && Swallowed(rest, next, i)
          ensures |rest[i]| >= MAX_SIZE
        {
          SwallowedLater(lines, swallow, i + 1);
          assert rest[i] == lines[i + 1];
        }
      }
      if Lost(lines, swallow) == 0 {
        forall i | 0 <= i < |lines| && Swallowed(lines, swallow, i)
          ensures |lines[i]| >= MAX_SIZE
        {
          if i > 0 {
            SwallowedLater(lines, swallow, i);
            assert rest[i - 1] == lines[i];
          }
        }
      }
    }
  }

  // The sentences are the lines that fit, in order, if and only if no line that fits comes
  // right after one of exactly 83 bytes that is itself read.
  lemma SentencesAreLines(lines: seq<seq<Byte>>, rest: seq<Byte>)
    requires AllLack(lines, NEWLINE) && Lacks(rest, NEWLINE)
    ensures Feed(Empty, Unlines(lines) + rest).sentences == Short(lines) <==> NoneLost(lines, false)
  {
    FeedAppend(Empty, Unlines(lines), rest);
    FeedLines(Empty, lines, false);
    var r := Feed(Empty, Unlines(lines));
    if r.overflow {
      FeedDropped(r, rest);
    } else {
      FeedPart(r, rest);
    }
    assert [] + Kept(lines, false) == Kept(lines, false);
    LostIsMissing(lines, false);
    LostIffSwallowed(lines, false);
  }

  // In particular if no line has exactly 83 bytes.
  lemma NoFullLine(lines: seq<seq<Byte>>, rest: seq<Byte>)
    requires AllLack(lines, NEWLINE) && Lacks(rest, NEWLINE)
    requires forall i :: 0 <= i < |lines| ==> |lines[i]| != MAX_SIZE
    ensures Feed(Empty, Unlines(lines) + rest).sentences == Short(lines)
  {
    SentencesAreLines(lines, rest);
  }

  // A line of 83 bytes and a short one: nothing is read.
  lemma FullLineSwallows(full: seq<Byte>, short: seq<Byte>)
    requires |full| == MAX_SIZE && |short| < MAX_SIZE && Lacks(full, NEWLINE) && Lacks(short, NEWLINE)
    ensures Feed(Empty, Unlines([full, short])).sentences == [] != Short([full, short])
  {
    var lines := [full, short];
    assert lines[1..] == [short] && |[short][1..]| == 0;
    FeedLines(Empty, lines, false);
    assert Kept(lines, false) == Kept([short], true) == Kept([], false);
    assert Short(lines) == Short([short]);
  }

  class NmeaReader {
    var pos: nat
    var overflow: bool
    const buffer: array<Byte>
    var sentences: seq<seq<Byte>>     // what nmea_reader_parse was called with

    ghost predicate Valid()
      reads this
    {
      buffer.Length == MAX_SIZE + 1 && pos <= MAX_SIZE
    }

    ghost function Value(): Reader
      reads this, buffer
      requires Valid()
    {
      Reader(buffer[..pos], overflow, sentences)
    }

    constructor ()
      ensures Valid() && fresh(buffer) && Value() == Empty
    {
      pos, overflow, sentences := 0, false, [];
      buffer := new Byte[MAX_SIZE + 1];
    }

    method AddC(c: Byte)
      requires Valid()
      modifies this, buffer
      ensures Valid() && Value() == Step(old(Value()), c)
    {
      if overflow {
        overflow := c != NEWLINE;
        return;
      }
      if pos >= buffer.Length - 1 {
        overflow := true;
        pos := 0;
        return;
      }
      buffer[pos] := c;
      assert buffer[..pos + 1] == old(buffer[..pos]) + [c];
      pos := pos + 1;
      if c == NEWLINE {
        sentences := sentences + [buffer[..pos]];
        pos := 0;
      }
    }

    // One read of the GPS thread.
    method Received(bytes: seq<Byte>)
      requires Valid()
      modifies this, buffer
      ensures Valid() && Value() == Feed(old(Value()), bytes)
    {
      var n := 0;
      while n < |bytes|
        invariant 0 <= n <= |bytes| && Valid()
        invariant Feed(Value(), bytes[n..]) == Feed(old(Value()), bytes)
      {
        assert bytes[n..][1..] == bytes[n + 1..];
        AddC(bytes[n]);
        n := n + 1;
      }
    }
  }

  // -------------------------------------------------------------- tokenizer

  // The fields between the commas.
  function Split(s: seq<Byte>): (r: seq<seq<Byte>>)
    ensures r != []
  {
    if s == [] then [[]]
    else if s[0] == COMMA then [[]] + Split(s[1..])
    else var r := Split(s[1..]); [[s[0]] + r[0]] + r[1..]
  }

  function Join(fields: seq<seq<Byte>>): seq<Byte> {
    if fields == [] then []
    else if |fields| == 1 then fields[0]
    else fields[0] + [COMMA] + Join(fields[1..])
  }

  // An empty last field gives no token.
  function Tokens(s: seq<Byte>): seq<seq<Byte>> {
    var fields := Split(s);
    if fields[|fields| - 1] == [] then fields[..|fields| - 1] else fields
  }

  // What the tokenizer keeps: the first sixteen.
  function Stored(tokens: seq<seq<Byte>>): seq<seq<Byte>> {
    if |tokens| <= MAX_TOKENS then tokens else tokens[..MAX_TOKENS]
  }

  lemma {:induction false} SplitFirst(field: seq<Byte>, rest: seq<Byte>)
    requires Lacks(field, COMMA)
    ensures Split(field) == [field]
    ensures Split(field + [COMMA] + rest) == [field] + Split(rest)
  {
    if field == [] {
      assert field + [COMMA] + rest == [COMMA] + rest;
      assert ([COMMA] + rest)[1..] == rest;
    } else {
      SplitFirst(field[1..], rest);
      var s := field + [COMMA] + rest;
      assert s[1..] == field[1..] + [COMMA] + rest;
      assert [field[0]] + field[1..] == field;
    }
  }

  lemma {:induction false} SplitOfJoin(fields: seq<seq<Byte>>)
    requires fields != [] && AllLack(fields, COMMA)
    ensures Split(Join(fields)) == fields
  {
    if |fields| == 1 {
      SplitFirst(fields[0], []);
    } else {
      SplitFirst(fields[0], Join(fields[1..]));
      SplitOfJoin(fields[1..]);
    }
  }

  lemma {:induction false} JoinOfSplit(s: seq<Byte>)
    ensures Join(Split(s)) == s && AllLack(Split(s), COMMA)
  {
    if s != [] {
      JoinOfSplit(s[1..]);
      var r := Split(s[1..]);
      if s[0] == COMMA {
        assert ([[]] + r)[1..] == r;
        assert [] + [COMMA] + s[1..] == s;
      } else {
        var first := [s[0]] + r[0];
        assert ([first] + r[1..])[1..] == r[1..];
        if |r| == 1 {
          assert s == first;
        } else {
          assert s == [s[0]] + (r[0] + [COMMA] + Join(r[1..]));
          assert s == first + [COMMA] + Join(r[1..]);
        }
      }
    }
  }

  lemma {:induction false} JoinEmptyLast(fields: seq<seq<Byte>>)
    requires fields != []
    ensures Join(fields + [[]]) == Join(fields) + [COMMA]
  {
    if |fields| > 1 {
      JoinEmptyLast(fields[1..]);
      assert (fields + [[]])[1..] == fields[1..] + [[]];
    } else {
      assert (fields + [[]])[1..] == [[]];
    }
  }

  // The tokens joined again are the text, up to one comma at its end.
  lemma TokensJoin(s: seq<Byte>)
    ensures AllLack(Tokens(s), COMMA)
    ensures Join(Tokens(s)) == if s != [] && s[|s| - 1] == COMMA then s[..|s| - 1] else s
  {
    JoinOfSplit(s);
    var fields := Split(s);
    var n := |fields| - 1;
    if fields[n] == [] && n > 0 {
      assert fields == fields[..n] + [[]];
      JoinEmptyLast(fields[..n]);
    } else if fields[n] != [] {
      LastOfJoin(fields);
    }
  }

  lemma {:induction false} LastOfJoin(fields: seq<seq<Byte>>)
    requires fields != [] && fields[|fields| - 1] != []
    ensures var j, last := Join(fields), fields[|fields| - 1]; j != [] && j[|j| - 1] == last[|last| - 1]
  {
    if |fields| > 1 {
      LastOfJoin(fields[1..]);
    }
  }

  // Fields that are joined come out again as tokens.
  lemma TokensOfJoin(fields: seq<seq<Byte>>)
    requires fields != [] && fields[|fields| - 1] != [] && AllLack(fields, COMMA)
    ensures Tokens(Join(fields)) == fields
  {
    SplitOfJoin(fields);
  }

  // The text between the optional dollar sign and the line end, without the checksum.
  function Unframed(s: seq<Byte>): seq<Byte> {
    NoChecksum(NoLineEnd(if s != [] && s[0] == DOLLAR then s[1..] else s))
  }

  function NoLineEnd(s: seq<Byte>): seq<Byte> {
    var n := |s|;
    if n > 0 && s[n - 1] == NEWLINE then
      if n > 1 && s[n - 2] == RETURN then s[..n - 2] else s[..n - 1]
    else s
  }

  function NoChecksum(s: seq<Byte>): seq<Byte> {
    if |s| >= 3 && s[|s| - 3] == STAR then s[..|s| - 3] else s
  }

  // A piece of the sentence, from p to before end.
  datatype Token = Token(p: nat, end: nat)

  function Text(s: seq<Byte>, t: Token): seq<Byte> {
    if t.p <= t.end <= |s| then s[t.p..t.end] else []
  }

  function Texts(s: seq<Byte>, ts: seq<Token>): (r: seq<seq<Byte>>)
    ensures |r| == |ts| && forall i :: 0 <= i < |ts| ==> r[i] == Text(s, ts[i])
  {
    seq(|ts|, i requires 0 <= i < |ts| => Text(s, ts[i]))
  }

  // memchr for a comma; the end if there is none.
  function FindComma(s: seq<Byte>, p: nat, end: nat): (q: nat)
    requires p <= end <= |s|
    ensures p <= q <= end && Lacks(s[p..q], COMMA) && (q < end ==> s[q] == COMMA)
    decreases end - p
  {
    if p == end then p
    else if s[p] == COMMA then p
    else
      var q := FindComma(s, p + 1, end);
      assert s[p..q] == [s[p]] + s[p + 1..q];
      q
  }

  lemma TokensFirst(field: seq<Byte>, rest: seq<Byte>)
    requires Lacks(field, COMMA)
    ensures Tokens(field + [COMMA] + rest) == [field] + Tokens(rest)
  {
    SplitFirst(field, rest);
    var fields := Split(rest);
    var all := [field] + fields;
    assert all[..|all| - 1] == [field] + fields[..|fields| - 1];
  }

  lemma TokensOnly(field: seq<Byte>)
    requires Lacks(field, COMMA)
    ensures Tokens(field) == if field == [] then [] else [field]
  {
    SplitFirst(field, []);
  }

  // One turn of the tokenizer's loop.
  lemma TokensStep(s: seq<Byte>, p: nat, end: nat)
    requires p < end <= |s|
    ensures var q := FindComma(s, p, end);
            Tokens(s[p..end]) == [s[p..q]] + (if q < end then Tokens(s[q + 1..end]) else [])
  {
    var q := FindComma(s, p, end);
    if q < end {
      assert s[p..end] == s[p..q] + [COMMA] + s[q + 1..end];
      TokensFirst(s[p..q], s[q + 1..end]);
    } else {
      TokensOnly(s[p..q]);
    }
  }

  // The tokens of s[p..end] are still to come.
  ghost predicate ToCome(s: seq<Byte>, p: nat, end: nat, done: seq<seq<Byte>>, all: seq<seq<Byte>>) {
    p <= end <= |s| && done + Tokens(s[p..end]) == all
  }

  function Past(q: nat, end: nat): nat {
    if q < end then q + 1 else q
  }

  lemma TokensMove(s: seq<Byte>, p: nat, end: nat, done: seq<seq<Byte>>, all: seq<seq<Byte>>)
    requires ToCome(s, p, end, done, all) && p < end
    ensures var q := FindComma(s, p, end); ToCome(s, Past(q, end), end, done + [s[p..q]], all)
  {
    TokensStep(s, p, end);
    var q := FindComma(s, p, end);
    if q < end {
      Associative(done, [s[p..q]], Tokens(s[q + 1..end]));
    } else {
      TokensOnly(s[q..end]);
    }
  }

  lemma NothingLeft(s: seq<Byte>, end: nat, done: seq<seq<Byte>>, all: seq<seq<Byte>>)
    requires ToCome(s, end, end, done, all)
    ensures done == all
  {
    assert |s[end..end]| == 0;
  }

  function Keep(stored: seq<seq<Byte>>, token: seq<Byte>): seq<seq<Byte>> {
    if |stored| < MAX_TOKENS then stored + [token] else stored
  }

  lemma KeepStored(tokens: seq<seq<Byte>>, token: seq<Byte>)
    ensures Stored(tokens + [token]) == Keep(Stored(tokens), token)
  {
  }

  class NmeaTokenizer {
    var count: nat
    const tokens: array<Token>

    ghost predicate Valid()
      reads this
    {
      tokens.Length == MAX_TOKENS && count <= MAX_TOKENS
    }

    constructor ()
      ensures Valid() && fresh(tokens)
    {
      count := 0;
      tokens := new Token[MAX_TOKENS](_ => Token(0, 0));
    }

    // The optional dollar sign, the line end and the checksum are left out.
    method Trim(s: seq<Byte>) returns (p: nat, end: nat)
      ensures p <= end <= |s| && s[p..end] == Unframed(s)
    {
      p, end := 0, |s|;
      if p < end && s[p] == DOLLAR {
        p := p + 1;
      }
      ghost var body := s[p..];
      if end > p && s[end - 1] == NEWLINE {
        end := end - 1;
        if end > p && s[end - 1] == RETURN {
          end := end - 1;
        }
      }
      assert s[p..end] == NoLineEnd(body);
      if end >= p + 3 && s[end - 3] == STAR {
        end := end - 3;
      }
    }

    // One more token, if there is room.
    method Add(ghost s: seq<Byte>, p: nat, q: nat)
      requires Valid() && p <= q <= |s|
      modifies this, tokens
      ensures Valid() && Texts(s, tokens[..count]) == Keep(old(Texts(s, tokens[..count])), s[p..q])
    {
      if count < MAX_TOKENS {
        ghost var before := tokens[..count];
        tokens[count] := Token(p, q);
        count := count + 1;
        assert tokens[..count] == before + [Token(p, q)];
      }
    }

    // One turn of the loop: the token at p.
    method Next(s: seq<Byte>, p: nat, end: nat, ghost done: seq<seq<Byte>>, ghost all: seq<seq<Byte>>)
      returns (p': nat, ghost done': seq<seq<Byte>>)
      requires Valid() && ToCome(s, p, end, done, all) && p < end
      requires Texts(s, tokens[..count]) == Stored(done)
      modifies this, tokens
      ensures Valid() && p < p' && ToCome(s, p', end, done', all)
      ensures Texts(s, tokens[..count]) == Stored(done')
    {
      var q := FindComma(s, p, end);
      TokensMove(s, p, end, done, all);
      KeepStored(done, s[p..q]);
      done' := done + [s[p..q]];
      Add(s, p, q);
      p' := Past(q, end);
    }

    method Init(s: seq<Byte>) returns (n: nat)
      requires Valid()
      modifies this, tokens
      ensures Valid() && n == count
      ensures Texts(s, tokens[..count]) == Stored(Tokens(Unframed(s)))
    {
      count := 0;
      var p, end := Trim(s);
      ghost var done: seq<seq<Byte>>, all := [], Tokens(Unframed(s));
      while p < end
        invariant Valid() && p <= end && ToCome(s, p, end, done, all)
        invariant Texts(s, tokens[..count]) == Stored(done)
      {
        p, done := Next(s, p, end, done, all);
      }
      NothingLeft(s, end, done, all);
      n := count;
    }

    // The text of the field with an index, and none where the sentence has no such field.
    method Get(index: int, ghost s: seq<Byte>) returns (t: Token)
      requires Valid() && Texts(s, tokens[..count]) == Stored(Tokens(Unframed(s)))
      ensures var fields := Stored(Tokens(Unframed(s)));
              Text(s, t) == if 0 <= index < |fields| then fields[index] else []
    {
      if index < 0 || index >= count {
        return Token(0, 0);
      }
      t := tokens[index];
    }
  }

  // ------------------------------------------------------- there and back

  // A sentence and its fields: the checksum is two bytes.
  datatype Sentence = Sentence(fields: seq<seq<Byte>>, high: Byte, low: Byte)

  // Without the newline.
  function Line(x: Sentence): seq<Byte> {
    [DOLLAR] + Join(x.fields) + [STAR, x.high, x.low, RETURN]
  }

  predicate Proper(x: Sentence) {
    && 1 <= |x.fields| <= MAX_TOKENS && x.fields[|x.fields| - 1] != []
    && AllLack(x.fields, COMMA) && AllLack(x.fields, NEWLINE)
    && x.high != NEWLINE && x.low != NEWLINE && |Line(x)| < MAX_SIZE
  }

  lemma {:induction false} JoinLacks(fields: seq<seq<Byte>>)
    requires AllLack(fields, NEWLINE)
    ensures Lacks(Join(fields), NEWLINE)
  {
    if |fields| > 1 {
      JoinLacks(fields[1..]);
    }
  }

  lemma SentenceRoundTrip(x: Sentence)
    requires Proper(x)
    ensures Lacks(Line(x), NEWLINE)
    ensures Stored(Tokens(Unframed(Line(x) + [NEWLINE]))) == x.fields
  {
    LineLacks(x);
    LineUnframed(x);
    TokensOfJoin(x.fields);
  }

  lemma LineLacks(x: Sentence)
    requires Proper(x)
    ensures Lacks(Line(x), NEWLINE)
  {
    JoinLacks(x.fields);
  }

  lemma LineUnframed(x: Sentence)
    ensures Unframed(Line(x) + [NEWLINE]) == Join(x.fields)
  {
    var body := Join(x.fields);
    var s := Line(x) + [NEWLINE];
    var t := s[1..];
    assert t == body + [STAR, x.high, x.low, RETURN, NEWLINE];
    assert NoLineEnd(t) == body + [STAR, x.high, x.low];
    assert NoChecksum(body + [STAR, x.high, x.low]) == body;
  }

  function Lines(xs: seq<Sentence>): (r: seq<seq<Byte>>)
    ensures |r| == |xs| && forall i :: 0 <= i < |xs| ==> r[i] == Line(xs[i])
  {
    seq(|xs|, i requires 0 <= i < |xs| => Line(xs[i]))
  }

  lemma {:induction false} AllShort(lines: seq<seq<Byte>>)
    requires forall i :: 0 <= i < |lines| ==> |lines[i]| < MAX_SIZE
    ensures |Short(lines)| == |lines| && forall i :: 0 <= i < |lines| ==> Short(lines)[i] == lines[i] + [NEWLINE]
  {
    if lines != [] {
      AllShort(lines[1..]);
    }
  }

  // Any stream of proper sentences is read as those sentences, with those fields.
  lemma StreamRoundTrip(xs: seq<Sentence>)
    requires forall i :: 0 <= i < |xs| ==> Proper(xs[i])
    ensures var read := Feed(Empty, Unlines(Lines(xs))).sentences;
            |read| == |xs| && forall i :: 0 <= i < |xs| ==> Stored(Tokens(Unframed(read[i]))) == xs[i].fields
  {
    forall i | 0 <= i < |xs|
      ensures Lacks(Line(xs[i]), NEWLINE) && Stored(Tokens(Unframed(Line(xs[i]) + [NEWLINE]))) == xs[i].fields
    {
      SentenceRoundTrip(xs[i]);
    }
    NoFullLine(Lines(xs), []);
    assert Unlines(Lines(xs)) + [] == Unlines(Lines(xs));
    AllShort(Lines(xs));
  }
}
