/**
 * What the two log-entry base classes share: the value of an entry's
 * fields, the placeholder scanner that both copy word for word
 * (`appendNextPatternChank`), `setPattern` and the idempotent `commit`.
 *
 * The staging buffer belongs to subclasses that are not part of this
 * model; it is a `string` that appends extend.
 */
module EntryCore {

  datatype Option<T> = None | Some(value: T)

  /** The Java exception classes that the entries throw, catch or record. */
  datatype Exception =
    | IllegalArgument
    | IllegalState
    | NullPointer
    | IndexOutOfBounds
    | BufferOverflow
    | Foreign(name: string)

  /** How a Java call returned: normally, or by throwing. */
  datatype Outcome = Pass | Throw(e: Exception)

  /**
   * What a call that appends to the entry wrote: all of its text, or a
   * prefix of it followed by an exception.
   */
  datatype Rendering = Rendered(text: string) | Threw(partial: string, e: Exception)
  {
    /** The characters that reached the buffer either way. */
    function Output(): string
    {
      if Rendered? then text else partial
    }
  }

  /** An application object passed to `append(Object)`, by identity. */
  datatype Obj = Obj(id: nat)

  /**
   * The overloads whose text the staging subclasses write:
   * `append(char)`, `append(CharSequence)`, `append(CharSequence, int, int)`,
   * `append(boolean)` and the integral ones (byte, short, int, long).
   */
  datatype Scalar =
    | Char(c: char)
    | Chars(s: string)
    | Slice(s: string, start: int, end: int)
    | Bool(b: bool)
    | Int(i: int)

  const Null: string := "null"

  function Digit(d: nat): char
    requires d < 10
  {
    ('0' as int + d) as char
  }

  /** Decimal digits of `n`, most significant first. */
  function NatText(n: nat): string
  {
    if n < 10 then [Digit(n)] else NatText(n / 10) + [Digit(n % 10)]
  }

  /** Java's decimal rendering of an integral value. */
  function IntText(i: int): string
  {
    if i < 0 then "-" + NatText(-i) else NatText(i)
  }

  /**
   * The text a scalar append writes; a range outside the character
   * sequence is refused with IndexOutOfBoundsException before anything is
   * written, as `Appendable.append(csq, start, end)` prescribes.
   */
  function ScalarText(x: Scalar): Rendering
  {
    match x
    case Char(c) => Rendered([c])
    case Chars(s) => Rendered(s)
    case Slice(s, start, end) =>
      if 0 <= start <= end <= |s| then Rendered(s[start..end]) else Threw("", IndexOutOfBounds)
    case Bool(b) => Rendered(if b then "true" else "false")
    case Int(i) => Rendered(IntText(i))
  }

  /** Regrouping a concatenation of three strings. */
  lemma AppendAssoc(a: string, b: string, c: string)
    ensures a + (b + c) == a + b + c
  {
  }

  // ---------------------------------------------------------------------
  // The placeholder scanner
  // ---------------------------------------------------------------------

  /** The result of one scan: the literal text emitted and the pattern characters consumed. */
  datatype Chunk = Chunk(text: string, consumed: nat)

  /** `s[k]` is a `%` followed by a character other than `%`: a token awaiting `with`. */
  predicate StopsAt(s: string, k: nat)
  {
    k + 1 < |s| && s[k] == '%' && s[k + 1] != '%'
  }

  /**
   * Reference definition of the scanner on the unread rest `s` of the
   * pattern, one token at a time: `%%` emits one `%`, a `%` followed by
   * any other character stops, a `%` in the last position and every other
   * character are copied.
   */
  function Scan(s: string): (r: Chunk)
    ensures r.consumed <= |s|
    decreases |s|
  {
    if |s| == 0 then Chunk("", 0)
    else if s[0] == '%' && 1 < |s| then
      if s[1] != '%' then Chunk("", 0)
      else
        var rest := Scan(s[2..]);
        Chunk("%" + rest.text, rest.consumed + 2)
    else
      var rest := Scan(s[1..]);
      Chunk([s[0]] + rest.text, rest.consumed + 1)
  }

  /** One step of the scan at position `i` of the pattern `p`. */
  lemma ScanAt(p: string, i: nat)
    requires i < |p|
    ensures p[i] == '%' && i + 1 < |p| && p[i + 1] != '%' ==> Scan(p[i..]) == Chunk("", 0)
    ensures p[i] == '%' && i + 1 < |p| && p[i + 1] == '%' ==>
      Scan(p[i..]) == Chunk([p[i]] + Scan(p[i + 2..]).text, Scan(p[i + 2..]).consumed + 2)
    ensures !(p[i] == '%' && i + 1 < |p|) ==>
      Scan(p[i..]) == Chunk([p[i]] + Scan(p[i + 1..]).text, Scan(p[i + 1..]).consumed + 1)
  {
    var s := p[i..];
    assert s[0] == p[i] && s[1..] == p[i + 1..];
    if i + 1 < |p| {
      assert s[1] == p[i + 1] && s[2..] == p[i + 2..];
    }
  }

  /**
   * The scanner read off the pattern `p` from the cursor `i`, as the
   * loop of `appendNextPatternChank` walks it.
   */
  function ScanFrom(p: string, i: nat): Chunk
    requires i <= |p|
    decreases |p| - i
  {
    if i == |p| then Chunk("", 0)
    else if p[i] == '%' && i + 1 < |p| then
      if p[i + 1] != '%' then Chunk("", 0)
      else
        var rest := ScanFrom(p, i + 2);
        Chunk("%" + rest.text, rest.consumed + 2)
    else
      var rest := ScanFrom(p, i + 1);
      Chunk([p[i]] + rest.text, rest.consumed + 1)
  }

  /** Walking the pattern from the cursor is scanning the rest of the pattern. */
  lemma {:induction false} ScanFromIsScan(p: string, i: nat)
    requires i <= |p|
    ensures ScanFrom(p, i) == Scan(p[i..])
    decreases |p| - i
  {
    if i == |p| {
      assert p[i..] == [];
    } else {
      ScanAt(p, i);
      if p[i] == '%' && i + 1 < |p| {
        if p[i + 1] == '%' {
          ScanFromIsScan(p, i + 2);
        }
      } else {
        ScanFromIsScan(p, i + 1);
      }
    }
  }

  /**
   * The scanner loop's account at cursor `i` with buffer `buf`: what is
   * still to be written and read from `i` on makes up `total` and `n`.
   */
  predicate ScanAccount(p: string, i: nat, buf: string, total: string, n: nat)
  {
    i <= |p| && buf + ScanFrom(p, i).text == total && i + ScanFrom(p, i).consumed == n
  }

  /**
   * One character step of the scanner loop at a cursor `i` that does not
   * stop keeps the account, copied character included, at the next cursor `j`.
   */
  lemma ScanFromCopies(p: string, i: nat, j: nat, buf: string, nbuf: string, total: string, n: nat)
    requires i < |p| && !(p[i] == '%' && i + 1 < |p| && p[i + 1] != '%')
    requires j == if p[i] == '%' && i + 1 < |p| then i + 2 else i + 1
    requires nbuf == buf + [p[i]]
    requires ScanAccount(p, i, buf, total, n)
    ensures ScanAccount(p, j, nbuf, total, n)
  {
    AppendAssoc(buf, [p[i]], ScanFrom(p, j).text);
  }

  /** The scan ends at the end of the pattern or on a `%x` token, never elsewhere. */
  lemma {:induction false} ScanStops(s: string)
    ensures Scan(s).consumed == |s| || StopsAt(s, Scan(s).consumed)
    decreases |s|
  {
    if |s| > 0 && !(s[0] == '%' && 1 < |s| && s[1] != '%') {
      var k := if s[0] == '%' && 1 < |s| then 2 else 1;
      var rest := s[k..];
      ScanStops(rest);
      var c := Scan(rest).consumed;
      assert Scan(s).consumed == c + k;
      if c < |rest| {
        assert rest[c] == s[c + k] && rest[c + 1] == s[c + k + 1];
      }
    }
  }

  /** The pattern text that prints `t` literally: every `%` doubled. */
  function Escape(t: string): string
  {
    if t == [] then []
    else if t[0] == '%' then "%%" + Escape(t[1..])
    else [t[0]] + Escape(t[1..])
  }

  /** A literal without `%` is its own pattern text. */
  lemma {:induction false} EscapePlain(t: string)
    requires forall i :: 0 <= i < |t| ==> t[i] != '%'
    ensures Escape(t) == t
  {
    if t != [] {
      assert forall i :: 0 <= i < |t[1..]| ==> t[1..][i] == t[i + 1];
      EscapePlain(t[1..]);
      assert t == [t[0]] + t[1..];
    }
  }

  /** Escaping a concatenation escapes each part. */
  lemma {:induction false} EscapeAppend(a: string, b: string)
    ensures Escape(a + b) == Escape(a) + Escape(b)
  {
    if a == [] {
      assert a + b == b;
    } else {
      assert (a + b)[0] == a[0] && (a + b)[1..] == a[1..] + b;
      EscapeAppend(a[1..], b);
      EscapeCons(a);
      EscapeCons(a + b);
    }
  }

  /** `%%` in front of any rest emits one `%` and goes on after the pair. */
  lemma ScanFoldsPercentPair(tail: string)
    ensures Scan("%%" + tail) == Chunk("%" + Scan(tail).text, Scan(tail).consumed + 2)
  {
    var s := "%%" + tail;
    assert s[0] == '%' && s[1] == '%' && s[2..] == tail;
  }

  /** Any character other than `%` is copied and the scan goes on after it. */
  lemma ScanCopiesLiteral(c: char, tail: string)
    requires c != '%'
    ensures Scan([c] + tail) == Chunk([c] + Scan(tail).text, Scan(tail).consumed + 1)
  {
    var s := [c] + tail;
    assert s[0] == c && s[1..] == tail;
  }

  /** The pattern text that prints the one character `c` literally. */
  function EscapeChar(c: char): string
  {
    if c == '%' then "%%" else [c]
  }

  /** An escaped literal is its first character escaped, then the rest escaped. */
  lemma EscapeCons(t: string)
    requires t != []
    ensures Escape(t) == EscapeChar(t[0]) + Escape(t[1..])
  {
  }

  /** Scanning an escaped character emits the character and goes on after its escape. */
  lemma ScanEscapeChar(c: char, tail: string)
    ensures Scan(EscapeChar(c) + tail) == Chunk([c] + Scan(tail).text, |EscapeChar(c)| + Scan(tail).consumed)
  {
    if c == '%' {
      ScanFoldsPercentPair(tail);
    } else {
      ScanCopiesLiteral(c, tail);
    }
  }

  /** Putting the first character of a non-empty `t` back in front of the rest of `t + x`. */
  lemma ConsAppend(t: string, x: string)
    requires t != []
    ensures [t[0]] + (t[1..] + x) == t + x
  {
    assert t == [t[0]] + t[1..];
  }

  /** Scanning an escaped literal gives the literal back and then goes on with what follows it. */
  lemma {:induction false} ScanEscape(t: string, q: string)
    ensures Scan(Escape(t) + q) == Chunk(t + Scan(q).text, |Escape(t)| + Scan(q).consumed)
  {
    if t == [] {
      assert Escape(t) + q == q;
    } else {
      var e1, e2 := EscapeChar(t[0]), Escape(t[1..]);
      var x := Scan(q).text;
      EscapeCons(t);
      ScanEscape(t[1..], q);
      AppendAssoc(e1, e2, q);
      ScanEscapeChar(t[0], e2 + q);
      ConsAppend(t, x);
    }
  }

  /** A `%` in the last position of the pattern is copied literally and ends the scan. */
  lemma LoneTrailingPercent(t: string)
    ensures Scan(Escape(t) + "%") == Chunk(t + "%", |Escape(t)| + 1)
  {
    ScanEscape(t, "%");
  }

  /**
   * The placeholder part of a template: `%s` followed by the escaped
   * literal that comes after it, for each literal of `ls`.
   */
  function Placeholders(ls: seq<string>): string
  {
    if ls == [] then "" else "%s" + Escape(ls[0]) + Placeholders(ls[1..])
  }

  /** The pattern that prints `first`, a value, `rest[0]`, a value, ..., the last literal. */
  function Template(first: string, rest: seq<string>): string
  {
    Escape(first) + Placeholders(rest)
  }

  /** `ts[0] + ls[0] + ts[1] + ls[1] + ...`. */
  function Interleave(ts: seq<string>, ls: seq<string>): string
    requires |ts| == |ls|
  {
    if ts == [] then "" else ts[0] + ls[0] + Interleave(ts[1..], ls[1..])
  }

  /** Peeling the first value and literal off an interleaving. */
  lemma InterleaveFirst(b: string, ts: seq<string>, ls: seq<string>)
    requires |ts| == |ls| && ts != []
    ensures b + Interleave(ts, ls) == (b + ts[0] + ls[0]) + Interleave(ts[1..], ls[1..])
  {
  }

  /** The scanner never emits anything in front of a placeholder part: it stops right there. */
  lemma ScanStopsAtPlaceholders(ls: seq<string>)
    ensures Scan(Placeholders(ls)) == Chunk("", 0)
  {
    if ls != [] {
      var s := Placeholders(ls);
      assert s[0] == '%' && s[1] == 's';
    }
  }

  /** Scanning a template emits its first literal and stops at its first placeholder. */
  lemma {:induction false} ScanTemplate(first: string, rest: seq<string>)
    ensures Scan(Template(first, rest)) == Chunk(first, |Escape(first)|)
  {
    ScanEscape(first, Placeholders(rest));
    ScanStopsAtPlaceholders(rest);
    assert first + "" == first;
  }

  // ---------------------------------------------------------------------
  // The value of an entry
  // ---------------------------------------------------------------------

  /**
   * The fields of an entry: `commited`, `error`, `pattern` (None is
   * Java's null), the cursor `pPos`, the staging buffer, the entries handed
   * to `LoggerService.entryFlushed` (their text at the moment of the
   * hand-off) and the reports sent to the `LogLog` side channel.
   */
  datatype EntryState = EntryState(
    commited: bool,
    error: Option<Exception>,
    pattern: Option<string>,
    pPos: nat,
    buffer: string,
    flushed: seq<string>,
    diagnostics: seq<Exception>)

  /** The cursor never passes the end of the pattern. */
  predicate ValidState(s: EntryState)
  {
    s.pattern.Some? ==> s.pPos <= |s.pattern.value|
  }

  /** The state after a call, and how the call returned. */
  datatype Step = Step(state: EntryState, outcome: Outcome)

  /**
   * `commit()`: nothing on a committed entry; otherwise one hand-off to
   * the logger service, then committed with pattern and error cleared.
   */
  function CommitState(s: EntryState): EntryState
  {
    if s.commited then s
    else s.(commited := true, pattern := None, error := None, flushed := s.flushed + [s.buffer])
  }

  /** Committing twice is committing once, and a commit hands the entry off at most once. */
  lemma CommitIdempotent(s: EntryState)
    ensures CommitState(CommitState(s)) == CommitState(s)
    ensures CommitState(s).commited && CommitState(s).buffer == s.buffer
    ensures |CommitState(s).flushed| == |s.flushed| + (if s.commited then 0 else 1)
  {
  }

  /**
   * `appendNextPatternChank()`: emit the literal run at the cursor, move
   * the cursor past it and commit when the pattern is used up.
   */
  function ScanState(s: EntryState): (r: EntryState)
    requires ValidState(s) && s.pattern.Some?
    ensures ValidState(r)
  {
    var p := s.pattern.value;
    var c := Scan(p[s.pPos..]);
    var t := s.(buffer := s.buffer + c.text, pPos := s.pPos + c.consumed);
    if t.pPos == |p| then CommitState(t) else t
  }

  /** `setPattern(p)`: a null pattern is refused before anything changes. */
  function SetPatternState(s: EntryState, p: Option<string>): (r: Step)
    requires ValidState(s)
    ensures ValidState(r.state)
  {
    if p.None? then Step(s, Throw(IllegalArgument))
    else Step(ScanState(s.(pattern := p, pPos := 0)), Pass)
  }

  /**
   * Scanning at a cursor that rests on a template emits the template's
   * first literal, and commits exactly when no placeholder follows.
   */
  lemma ScanTemplateState(s: EntryState, first: string, rest: seq<string>, n: EntryState)
    requires ValidState(s) && s.pattern.Some?
    requires s.pattern.value[s.pPos..] == Template(first, rest)
    requires n == s.(buffer := s.buffer + first, pPos := s.pPos + |Escape(first)|)
    ensures ScanState(s) == if rest == [] then CommitState(n) else n
  {
    var p := s.pattern.value;
    assert Scan(p[s.pPos..]) == Chunk(first, |Escape(first)|) by {
      ScanTemplate(first, rest);
    }
    assert s.pPos + |Escape(first)| == |p| <==> rest == [] by {
      assert |Template(first, rest)| == |Escape(first)| + |Placeholders(rest)|;
      if rest != [] {
        assert |Placeholders(rest)| >= 2;
      }
    }
  }

  /** A placeholder part starts with `%s`, and the rest of it is again a template. */
  lemma PlaceholderAhead(p: string, k: nat, rest: seq<string>)
    requires k <= |p| && rest != []
    requires p[k..] == Placeholders(rest)
    ensures k + 1 < |p| && p[k] == '%' && p[k + 1] == 's'
    ensures p[k + 2..] == Template(rest[0], rest[1..])
  {
    assert Placeholders(rest) == "%s" + Template(rest[0], rest[1..]);
    assert p[k..][0] == p[k] && p[k..][1] == p[k + 1] && p[k..][2..] == p[k + 2..];
  }

  /** Past the `%s` and the literal after it, the placeholder part goes on with the next placeholder. */
  lemma PlaceholdersAfterLiteral(p: string, k: nat, rest: seq<string>)
    requires k <= |p| && rest != []
    requires p[k..] == Placeholders(rest)
    ensures k + 2 + |Escape(rest[0])| <= |p|
    ensures p[k + 2 + |Escape(rest[0])|..] == Placeholders(rest[1..])
  {
    var m := 2 + |Escape(rest[0])|;
    assert Placeholders(rest) == ("%s" + Escape(rest[0])) + Placeholders(rest[1..]);
    assert p[k..][m..] == p[k + m..];
  }

  /** A placeholder part is empty or at least as long as `%s`. */
  lemma PlaceholdersLength(ls: seq<string>)
    ensures ls == [] <==> |Placeholders(ls)| == 0
    ensures ls != [] ==> |Placeholders(ls)| >= 2
  {
  }

  /** After a successful scan that did not commit, the cursor rests on a `%x` token. */
  lemma ScanLeavesCursorOnToken(s: EntryState)
    requires ValidState(s) && s.pattern.Some? && !s.commited
    ensures var r := ScanState(s);
      r.commited || (r.pattern == s.pattern && StopsAt(s.pattern.value, r.pPos))
  {
    var p := s.pattern.value;
    var c := Scan(p[s.pPos..]);
    ScanStops(p[s.pPos..]);
    if s.pPos + c.consumed != |p| {
      assert StopsAt(p[s.pPos..], c.consumed);
      assert p[s.pPos..][c.consumed] == p[s.pPos + c.consumed];
      assert p[s.pPos..][c.consumed + 1] == p[s.pPos + c.consumed + 1];
    }
  }
}
