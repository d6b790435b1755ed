/**
 * The current entry base class, `org.gflogger.AbstractLocalLogEntry`:
 * the placeholder state machine (`setPattern`, `with`, `withLast`,
 * `commit`), the appends that catch failures of foreign code and record
 * them with an optional truncation marker, and `[e0<sep>e1...]` rendering
 * of arrays and iterables.
 *
 * Object formatters (`ObjectFormatterFactory`, `ObjectFormatter`) and
 * `Loggable.appendTo` are foreign: an object is rendered by the factory's
 * `render` with the formatter `resolve` picks, and a loggable is given by
 * what its `appendTo` writes.
 */
module LocalEntry {
  import opened EntryCore

  datatype Formatter = Formatter(id: nat)

  /** `getObjectFormatter` as `resolve`; `ObjectFormatter.append` as `render`. */
  datatype FormatterFactory = FormatterFactory(
    resolve: Obj -> Formatter,
    render: (Formatter, Obj) -> Rendering)

  /** The argument of one of the `append`, `appendLast`, `with` and `withLast` overloads. */
  datatype Arg =
    | Plain(x: Scalar)
    | Object(o: Option<Obj>)
    | Loggable(appendTo: Option<Rendering>)
    | Array(elements: Option<seq<Option<Obj>>>, separator: string)
    | Iterable(elements: Option<seq<Option<Obj>>>, separator: string)

  /** The marker used when the `gflogger.errorMessage` property is not set. */
  const DefaultErrorMessage: string := ">>TRNCTD>>"

  // ---------------------------------------------------------------------
  // Rendering of arrays and iterables
  // ---------------------------------------------------------------------

  /** Index of the first non-null element, or `|xs|` when there is none. */
  function FirstNonNull(xs: seq<Option<Obj>>): (k: nat)
    ensures k <= |xs|
    ensures forall j :: 0 <= j < k ==> xs[j].None?
    ensures k < |xs| ==> xs[k].Some?
  {
    if xs == [] then 0 else if xs[0].Some? then 0 else 1 + FirstNonNull(xs[1..])
  }

  /** The one formatter used for every element: the one resolved for the first non-null element. */
  function ElementFormatter(fac: FormatterFactory, xs: seq<Option<Obj>>): Formatter
  {
    var k := FirstNonNull(xs);
    if k < |xs| then fac.resolve(xs[k].value) else Formatter(0)
  }

  /** One element: `null` for a null element, otherwise what the formatter writes. */
  function Piece(fac: FormatterFactory, fmt: Formatter, x: Option<Obj>): Rendering
  {
    if x.None? then Rendered(Null) else fac.render(fmt, x.value)
  }

  /** What reached the buffer for each element. */
  function Outputs(fac: FormatterFactory, fmt: Formatter, xs: seq<Option<Obj>>): (r: seq<string>)
    ensures |r| == |xs|
  {
    if xs == [] then [] else Outputs(fac, fmt, xs[..|xs| - 1]) + [Piece(fac, fmt, xs[|xs| - 1]).Output()]
  }

  /** Index of the first element whose formatter throws, or `|xs|`. */
  function FirstFailure(fac: FormatterFactory, fmt: Formatter, xs: seq<Option<Obj>>): (k: nat)
    ensures k <= |xs|
    ensures forall j :: 0 <= j < k ==> Piece(fac, fmt, xs[j]).Rendered?
    ensures k < |xs| ==> Piece(fac, fmt, xs[k]).Threw?
  {
    if xs == [] then 0
    else if Piece(fac, fmt, xs[0]).Threw? then 0
    else 1 + FirstFailure(fac, fmt, xs[1..])
  }

  /** The parts with `sep` between each two of them. */
  function Join(parts: seq<string>, sep: string): string
  {
    if |parts| == 0 then ""
    else if |parts| == 1 then parts[0]
    else Join(parts[..|parts| - 1], sep) + sep + parts[|parts| - 1]
  }

  /**
   * Reference rendering of a non-null array or iterable: `[`, the
   * elements separated by `sep`, `]`. When an element's formatter
   * throws, the output stops right after what that formatter wrote.
   */
  function RenderElements(fac: FormatterFactory, xs: seq<Option<Obj>>, sep: string): Rendering
  {
    var fmt := ElementFormatter(fac, xs);
    var k := FirstFailure(fac, fmt, xs);
    if k == |xs| then Rendered("[" + Join(Outputs(fac, fmt, xs), sep) + "]")
    else Threw("[" + Join(Outputs(fac, fmt, xs[..k + 1]), sep), Piece(fac, fmt, xs[k]).e)
  }

  /** Joining one more part adds the separator only between parts. */
  lemma JoinSnoc(parts: seq<string>, x: string, sep: string)
    ensures Join(parts + [x], sep) == if parts == [] then x else Join(parts, sep) + sep + x
  {
    assert (parts + [x])[..|parts|] == parts;
  }

  /** Extending the element prefix by one element extends the outputs by that element's output. */
  lemma OutputsSnoc(fac: FormatterFactory, fmt: Formatter, xs: seq<Option<Obj>>, i: nat)
    requires i < |xs|
    ensures Outputs(fac, fmt, xs[..i + 1]) == Outputs(fac, fmt, xs[..i]) + [Piece(fac, fmt, xs[i]).Output()]
  {
    assert xs[..i + 1][..i] == xs[..i];
  }

  /** Separators stand only between elements: the right-to-left reading of `Join`. */
  lemma {:induction false} JoinCons(x: string, parts: seq<string>, sep: string)
    ensures Join([x] + parts, sep) == if parts == [] then x else x + sep + Join(parts, sep)
    decreases |parts|
  {
    if parts != [] {
      var last := parts[|parts| - 1];
      var init := parts[..|parts| - 1];
      assert [x] + parts == ([x] + init) + [last];
      assert parts == init + [last];
      JoinSnoc([x] + init, last, sep);
      JoinSnoc(init, last, sep);
      JoinCons(x, init, sep);
    }
  }

  /** An all-null array renders as `[null<sep>null...]` and never asks for a formatter's output. */
  lemma {:induction false} AllNullElements(fac: FormatterFactory, n: nat, sep: string)
    ensures var xs := seq(n, _ => None);
      RenderElements(fac, xs, sep) == Rendered("[" + Join(seq(n, _ => Null), sep) + "]")
  {
    var xs: seq<Option<Obj>> := seq(n, _ => None);
    var fmt := ElementFormatter(fac, xs);
    var k := FirstFailure(fac, fmt, xs);
    AllNullOutputs(fac, fmt, n);
  }

  lemma {:induction false} AllNullOutputs(fac: FormatterFactory, fmt: Formatter, n: nat)
    ensures Outputs(fac, fmt, seq(n, _ => None)) == seq(n, _ => Null)
  {
    if n > 0 {
      var xs: seq<Option<Obj>> := seq(n, _ => None);
      assert xs[..n - 1] == seq(n - 1, _ => None);
      AllNullOutputs(fac, fmt, n - 1);
      assert seq(n, _ => Null) == seq(n - 1, _ => Null) + [Null];
    }
  }

  /**
   * The text of the first `i` elements with their separators, as the
   * array and iterable loops build it up one element at a time.
   */
  function Joined(fac: FormatterFactory, fmt: Formatter, xs: seq<Option<Obj>>, sep: string, i: nat): string
    requires i <= |xs|
  {
    if i == 0 then ""
    else if i == 1 then Piece(fac, fmt, xs[0]).Output()
    else Joined(fac, fmt, xs, sep, i - 1) + sep + Piece(fac, fmt, xs[i - 1]).Output()
  }

  /** Building the text up element by element gives the joined outputs of the prefix. */
  lemma {:induction false} JoinedIsJoin(fac: FormatterFactory, fmt: Formatter, xs: seq<Option<Obj>>, sep: string, i: nat)
    requires i <= |xs|
    ensures Joined(fac, fmt, xs, sep, i) == Join(Outputs(fac, fmt, xs[..i]), sep)
  {
    if i > 0 {
      JoinedIsJoin(fac, fmt, xs, sep, i - 1);
      OutputsSnoc(fac, fmt, xs, i - 1);
      JoinSnoc(Outputs(fac, fmt, xs[..i - 1]), Piece(fac, fmt, xs[i - 1]).Output(), sep);
      if i == 1 {
        assert Outputs(fac, fmt, xs[..0]) == [];
      } else {
        assert Outputs(fac, fmt, xs[..i - 1]) != [];
      }
    }
  }

  /**
   * The formatter slot of the array and iterable loops: empty until the
   * first non-null element, which resolves it; from then on the formatter
   * of every element.
   */
  lemma FormatterSlot(fac: FormatterFactory, xs: seq<Option<Obj>>, i: nat, formatter: Option<Formatter>)
    requires i < |xs|
    requires formatter == if FirstNonNull(xs) < i then Some(ElementFormatter(fac, xs)) else None
    ensures var next := if xs[i].Some? && formatter.None? then Some(fac.resolve(xs[i].value)) else formatter;
      next == (if FirstNonNull(xs) < i + 1 then Some(ElementFormatter(fac, xs)) else None) &&
      (xs[i].Some? ==> next == Some(ElementFormatter(fac, xs)))
  {
  }

  /**
   * What the iterable loop has written after `i` elements: the opening
   * bracket, the first `i` elements joined, and a separator when another
   * element follows.
   */
  predicate IterableText(fac: FormatterFactory, fmt: Formatter, xs: seq<Option<Obj>>, sep: string, i: nat, out: string)
  {
    i <= |xs| && out == "[" + Joined(fac, fmt, xs, sep, i) + (if 0 < i < |xs| then sep else "")
  }

  /** The iterable loop writes element `i`: the text is the first `i + 1` elements joined. */
  lemma IterablePiece(fac: FormatterFactory, fmt: Formatter, xs: seq<Option<Obj>>, sep: string, i: nat,
                      out: string, next: string)
    requires i < |xs| && IterableText(fac, fmt, xs, sep, i, out)
    requires next == out + Piece(fac, fmt, xs[i]).Output()
    ensures next == "[" + Joined(fac, fmt, xs, sep, i + 1)
  {
    var pending := if i > 0 then sep else "";
    AppendAssoc("[", Joined(fac, fmt, xs, sep, i), pending);
    AppendAssoc("[", Joined(fac, fmt, xs, sep, i) + pending, Piece(fac, fmt, xs[i]).Output());
  }

  /** The iterable loop writes the separator exactly when another element follows. */
  lemma IterableSeparator(fac: FormatterFactory, fmt: Formatter, xs: seq<Option<Obj>>, sep: string, i: nat,
                          mid: string, next: string)
    requires i < |xs| && mid == "[" + Joined(fac, fmt, xs, sep, i + 1)
    requires next == if i + 1 < |xs| then mid + sep else mid
    ensures IterableText(fac, fmt, xs, sep, i + 1, next)
  {
  }

  /** Every element rendered completely: the closing bracket follows. */
  lemma ElementsDone(fac: FormatterFactory, xs: seq<Option<Obj>>, sep: string)
    requires FirstFailure(fac, ElementFormatter(fac, xs), xs) == |xs|
    ensures RenderElements(fac, xs, sep) ==
      Rendered("[" + Joined(fac, ElementFormatter(fac, xs), xs, sep, |xs|) + "]")
  {
    var fmt := ElementFormatter(fac, xs);
    JoinedIsJoin(fac, fmt, xs, sep, |xs|);
    assert xs[..|xs|] == xs;
    assert FirstFailure(fac, fmt, xs) == |xs|;
  }

  /** The first failing element ends the rendering right after its partial output. */
  lemma ElementsFail(fac: FormatterFactory, xs: seq<Option<Obj>>, sep: string, i: nat)
    requires i < |xs|
    requires i <= FirstFailure(fac, ElementFormatter(fac, xs), xs)
    requires Piece(fac, ElementFormatter(fac, xs), xs[i]).Threw?
    ensures RenderElements(fac, xs, sep) ==
      Threw("[" + Joined(fac, ElementFormatter(fac, xs), xs, sep, i + 1),
            Piece(fac, ElementFormatter(fac, xs), xs[i]).e)
  {
    var fmt := ElementFormatter(fac, xs);
    JoinedIsJoin(fac, fmt, xs, sep, i + 1);
    assert FirstFailure(fac, fmt, xs) == i;
  }

  // ---------------------------------------------------------------------
  // The state machine
  // ---------------------------------------------------------------------

  /** What the try-protected appends (object, loggable, array, iterable) write. */
  function ArgRendering(fac: FormatterFactory, v: Arg): Rendering
  {
    match v
    case Plain(x) => ScalarText(x)
    case Object(o) => if o.None? then Rendered(Null) else fac.render(fac.resolve(o.value), o.value)
    case Loggable(l) => if l.None? then Rendered(Null) else l.value
    case Array(xs, sep) => if xs.None? then Rendered(Null) else RenderElements(fac, xs.value, sep)
    case Iterable(xs, sep) => if xs.None? then Rendered(Null) else RenderElements(fac, xs.value, sep)
  }

  /**
   * `error(msg, e)`: the exception becomes the entry's error; with a
   * marker the marker is written, without one the failure goes to `LogLog`.
   */
  function RecordErrorState(marker: Option<string>, s: EntryState, e: Exception): EntryState
  {
    if marker.None? then s.(error := Some(e), diagnostics := s.diagnostics + [e])
    else s.(error := Some(e), buffer := s.buffer + marker.value)
  }

  /** A foreign append inside `try { ... } catch (Throwable e) { error(...) }`. */
  function AbsorbState(marker: Option<string>, s: EntryState, rd: Rendering): EntryState
  {
    var t := s.(buffer := s.buffer + rd.Output());
    if rd.Rendered? then t else RecordErrorState(marker, t, rd.e)
  }

  /** Any `append` overload: the scalar ones may throw, the others absorb failures. */
  function AppendState(fac: FormatterFactory, marker: Option<string>, s: EntryState, v: Arg): Step
  {
    if v.Plain? then
      var rd := ScalarText(v.x);
      Step(s.(buffer := s.buffer + rd.Output()), if rd.Threw? then Throw(rd.e) else Pass)
    else Step(AbsorbState(marker, s, ArgRendering(fac, v)), Pass)
  }

  /** `checkPlaceholder()`. */
  function CheckPlaceholderState(s: EntryState): Step
  {
    if s.pattern.None? then Step(s, Throw(IllegalState))
    else if s.pPos + 1 >= |s.pattern.value| then Step(s, Throw(IllegalState))
    else if s.pattern.value[s.pPos] != '%' || s.pattern.value[s.pPos + 1] != 's' then Step(s, Throw(IllegalArgument))
    else Step(s.(pPos := s.pPos + 2), Pass)
  }

  /** `with(v)`: consume the `%s`, append `v`, scan on. */
  function WithState(fac: FormatterFactory, marker: Option<string>, s: EntryState, v: Arg): (r: Step)
    requires ValidState(s)
    ensures ValidState(r.state)
  {
    var c := CheckPlaceholderState(s);
    if c.outcome.Throw? then c
    else
      var a := AppendState(fac, marker, c.state, v);
      if a.outcome.Throw? then a else Step(ScanState(a.state), Pass)
  }

  /** `checkAndCommit()`. */
  function CheckAndCommitState(s: EntryState): Step
  {
    if s.commited then Step(s, Pass)
    else if s.pattern.None? then Step(s, Throw(NullPointer))
    else if s.pPos + 1 != |s.pattern.value| then Step(s, Throw(IllegalState))
    else Step(CommitState(s), Pass)
  }

  /** `withLast(v)`: `with(v)` then `checkAndCommit()`. */
  function WithLastState(fac: FormatterFactory, marker: Option<string>, s: EntryState, v: Arg): (r: Step)
    requires ValidState(s)
    ensures ValidState(r.state)
  {
    var w := WithState(fac, marker, s, v);
    if w.outcome.Throw? then w else CheckAndCommitState(w.state)
  }

  /** `appendLast(v)`: `append(v)` then `commit()`. */
  function AppendLastState(fac: FormatterFactory, marker: Option<string>, s: EntryState, v: Arg): Step
  {
    var a := AppendState(fac, marker, s, v);
    if a.outcome.Throw? then a else Step(CommitState(a.state), Pass)
  }

  /** A chain of `with` calls, stopping at the first that throws. */
  function WithAll(fac: FormatterFactory, marker: Option<string>, s: EntryState, vs: seq<Arg>): (r: Step)
    requires ValidState(s)
    ensures ValidState(r.state)
    decreases |vs|
  {
    if vs == [] then Step(s, Pass)
    else
      var w := WithState(fac, marker, s, vs[0]);
      if w.outcome.Throw? then w else WithAll(fac, marker, w.state, vs[1..])
  }

  // ---------------------------------------------------------------------
  // Properties of the state machine
  // ---------------------------------------------------------------------

  /** A null pattern is refused and the entry is left exactly as it was. */
  lemma NullPatternRefused(s: EntryState)
    requires ValidState(s)
    ensures SetPatternState(s, None) == Step(s, Throw(IllegalArgument))
  {
  }

  /** An append whose whole text was written extends the buffer by that text and nothing else. */
  lemma AppendRendered(fac: FormatterFactory, marker: Option<string>, s: EntryState, v: Arg, t: string)
    requires ArgRendering(fac, v) == Rendered(t)
    ensures AppendState(fac, marker, s, v) == Step(s.(buffer := s.buffer + t), Pass)
  {
  }

  /** `with` on an entry that has nothing pending: the call is refused and nothing changes. */
  lemma WithRefusedWithoutPlaceholder(fac: FormatterFactory, marker: Option<string>, s: EntryState, v: Arg)
    requires ValidState(s)
    requires !(s.pattern.Some? && StopsAt(s.pattern.value, s.pPos) && s.pattern.value[s.pPos + 1] == 's')
    ensures WithState(fac, marker, s, v).state == s
    ensures WithState(fac, marker, s, v).outcome.Throw?
  {
  }

  /**
   * `withLast` either finds the pattern finished (the scanner already
   * committed it) or refuses with IllegalStateException and leaves the entry
   * uncommitted: `checkAndCommit`'s own commit is never reached after `with`.
   */
  lemma WithLastRejectsUnfinished(fac: FormatterFactory, marker: Option<string>, s: EntryState, v: Arg)
    requires ValidState(s) && !s.commited
    requires WithState(fac, marker, s, v).outcome.Pass?
    ensures var w := WithState(fac, marker, s, v).state;
      WithLastState(fac, marker, s, v) ==
        if w.commited then Step(w, Pass) else Step(w, Throw(IllegalState))
  {
    var a := AppendState(fac, marker, CheckPlaceholderState(s).state, v);
    ScanLeavesCursorOnToken(a.state);
  }

  /**
   * `checkAndCommit` passes a committed entry untouched and commits an open
   * one exactly when the cursor stands one before the end of the pattern;
   * when it throws, nothing changes.
   */
  lemma CheckAndCommitOutcomes(s: EntryState)
    ensures s.commited ==> CheckAndCommitState(s) == Step(s, Pass)
    ensures !s.commited && s.pattern.Some? ==>
      (CheckAndCommitState(s).outcome.Pass? <==> s.pPos + 1 == |s.pattern.value|)
    ensures CheckAndCommitState(s).outcome.Pass? ==> CheckAndCommitState(s).state == CommitState(s)
    ensures CheckAndCommitState(s).outcome.Throw? ==> CheckAndCommitState(s).state == s
  {
  }

  /**
   * A failing object, loggable, array or iterable append returns normally:
   * its partial text stays, the exception becomes the entry's error, and
   * either the marker is written or the failure is reported to `LogLog`.
   */
  lemma AppendFailureRecorded(fac: FormatterFactory, marker: Option<string>, s: EntryState, v: Arg)
    requires !v.Plain? && ArgRendering(fac, v).Threw?
    ensures var rd := ArgRendering(fac, v);
      var r := AppendState(fac, marker, s, v);
      r.outcome == Pass && r.state.error == Some(rd.e) &&
      r.state.buffer == s.buffer + rd.partial + (if marker.Some? then marker.value else "") &&
      r.state.diagnostics == s.diagnostics + (if marker.None? then [rd.e] else []) &&
      r.state == s.(error := r.state.error, buffer := r.state.buffer, diagnostics := r.state.diagnostics)
  {
  }

  /** `with` on a cursor that rests on `%s`, with a value whose whole text is written. */
  lemma WithAtPlaceholder(fac: FormatterFactory, marker: Option<string>, s: EntryState, v: Arg, t: string, r: EntryState)
    requires ValidState(s) && s.pattern.Some? && s.pPos + 1 < |s.pattern.value|
    requires s.pattern.value[s.pPos] == '%' && s.pattern.value[s.pPos + 1] == 's'
    requires ArgRendering(fac, v) == Rendered(t)
    requires ScanState(s.(pPos := s.pPos + 2, buffer := s.buffer + t)) == r
    ensures WithState(fac, marker, s, v) == Step(r, Pass)
  {
    AppendRendered(fac, marker, s.(pPos := s.pPos + 2), v, t);
  }

  /** Every argument of `vs` renders completely, as the matching text of `ts`. */
  predicate RendersAll(fac: FormatterFactory, vs: seq<Arg>, ts: seq<string>)
  {
    |vs| == |ts| && forall i :: 0 <= i < |vs| ==> ArgRendering(fac, vs[i]) == Rendered(ts[i])
  }

  lemma RendersAllTail(fac: FormatterFactory, vs: seq<Arg>, ts: seq<string>)
    requires RendersAll(fac, vs, ts) && vs != []
    ensures ArgRendering(fac, vs[0]) == Rendered(ts[0]) && RendersAll(fac, vs[1..], ts[1..])
  {
    forall i | 0 <= i < |vs[1..]|
      ensures ArgRendering(fac, vs[1..][i]) == Rendered(ts[1..][i])
    {
      assert vs[1..][i] == vs[i + 1] && ts[1..][i] == ts[i + 1];
    }
  }

  /** A chain of `with` calls whose first call passes goes on from the state that call left. */
  lemma WithAllStep(fac: FormatterFactory, marker: Option<string>, s: EntryState, vs: seq<Arg>, w: EntryState)
    requires ValidState(s) && vs != []
    requires WithState(fac, marker, s, vs[0]) == Step(w, Pass)
    ensures ValidState(w) && WithAll(fac, marker, s, vs) == WithAll(fac, marker, w, vs[1..])
  {
  }

  /** One `with` on a template positioned at its placeholders. */
  lemma FillOnePlaceholder(fac: FormatterFactory, marker: Option<string>, s: EntryState,
                           rest: seq<string>, v: Arg, t: string,
                           n: EntryState, w: EntryState)
    requires ValidState(s) && !s.commited && s.pattern.Some? && rest != []
    requires s.pPos <= |s.pattern.value| && s.pattern.value[s.pPos..] == Placeholders(rest)
    requires ArgRendering(fac, v) == Rendered(t)
    requires n == s.(buffer := s.buffer + t + rest[0], pPos := s.pPos + 2 + |Escape(rest[0])|)
    requires w == if rest[1..] == [] then CommitState(n) else n
    ensures WithState(fac, marker, s, v) == Step(w, Pass)
  {
    var k := s.pPos;
    var a := s.(pPos := k + 2, buffer := s.buffer + t);
    PlaceholderAhead(s.pattern.value, k, rest);
    ScanTemplateState(a, rest[0], rest[1..], n);
    WithAtPlaceholder(fac, marker, s, v, t, w);
  }

  /** The `with` chain that fills every remaining placeholder of a template, in order. */
  lemma {:induction false} FillPlaceholders(fac: FormatterFactory, marker: Option<string>, s: EntryState,
                                            rest: seq<string>, vs: seq<Arg>, ts: seq<string>)
    requires ValidState(s) && !s.commited && s.pattern.Some?
    requires |rest| == |vs| && rest != [] && RendersAll(fac, vs, ts)
    requires s.pPos <= |s.pattern.value| && s.pattern.value[s.pPos..] == Placeholders(rest)
    ensures WithAll(fac, marker, s, vs) ==
      Step(CommitState(s.(buffer := s.buffer + Interleave(ts, rest), pPos := |s.pattern.value|)), Pass)
    decreases |rest|
  {
    var p := s.pattern.value;
    var n := s.(buffer := s.buffer + ts[0] + rest[0], pPos := s.pPos + 2 + |Escape(rest[0])|);
    var w := if rest[1..] == [] then CommitState(n) else n;
    RendersAllTail(fac, vs, ts);
    FillOnePlaceholder(fac, marker, s, rest, vs[0], ts[0], n, w);
    WithAllStep(fac, marker, s, vs, w);
    PlaceholdersAfterLiteral(p, s.pPos, rest);
    PlaceholdersLength(rest[1..]);
    var text := s.buffer + Interleave(ts, rest);
    InterleaveFirst(s.buffer, ts, rest);
    if rest[1..] == [] {
      assert vs[1..] == [] && ts[1..] == [];
      assert n == s.(buffer := text, pPos := |p|);
    } else {
      FillPlaceholders(fac, marker, n, rest[1..], vs[1..], ts[1..]);
      assert n.(buffer := text, pPos := |p|) == s.(buffer := text, pPos := |p|);
    }
  }

  /**
   * The placeholder round trip: on an open entry, setting the template
   * for `first, rest[0], ..., rest[n-1]` and then calling `with` with n
   * values prints the literals and the values interleaved, in order, and
   * commits exactly once, by itself.
   */
  lemma {:induction false} FormatRoundTrip(fac: FormatterFactory, marker: Option<string>, s: EntryState,
                                           first: string, rest: seq<string>, vs: seq<Arg>, ts: seq<string>)
    requires ValidState(s) && !s.commited
    requires |rest| == |vs| && RendersAll(fac, vs, ts)
    ensures var sp := SetPatternState(s, Some(Template(first, rest)));
      var r := WithAll(fac, marker, sp.state, vs);
      var text := s.buffer + first + Interleave(ts, rest);
      sp.outcome == Pass && r.outcome == Pass &&
      r.state == s.(commited := true, pattern := None, error := None,
                    pPos := |Template(first, rest)|, buffer := text, flushed := s.flushed + [text])
  {
    var p := Template(first, rest);
    var s0 := s.(pattern := Some(p), pPos := 0);
    var s1 := s0.(buffer := s.buffer + first, pPos := |Escape(first)|);
    assert p[0..] == p;
    ScanTemplateState(s0, first, rest, s1);
    if rest == [] {
      assert vs == [] && ts == [];
      assert s.buffer + first + Interleave(ts, rest) == s1.buffer;
      assert |p| == s1.pPos;
    } else {
      assert p[s1.pPos..] == Placeholders(rest);
      FillPlaceholders(fac, marker, s1, rest, vs, ts);
    }
  }

  /**
   * `"a=%s b=%s"` after `setPattern` and `with(1)`: the entry reads `a=1 b=`
   * and waits, uncommitted, at the second `%s`.
   */
  lemma FirstOfTwoPlaceholders(fac: FormatterFactory, marker: Option<string>, s: EntryState)
    requires ValidState(s) && !s.commited
    ensures var sp := SetPatternState(s, Some("a=%s b=%s"));
      sp.outcome == Pass &&
      WithState(fac, marker, sp.state, Plain(Int(1))) ==
        Step(s.(pattern := Some("a=%s b=%s"), pPos := 7, buffer := s.buffer + "a=" + "1" + " b="), Pass)
  {
    var p, rest := "a=%s b=%s", [" b=", ""];
    TwoPlaceholdersPattern();
    var s0 := s.(pattern := Some(p), pPos := 0);
    var s1 := s0.(buffer := s.buffer + "a=", pPos := 2);
    assert p[0..] == p;
    ScanTemplateState(s0, "a=", rest, s1);
    assert p[2..] == Placeholders(rest);
    var n1 := s1.(buffer := s1.buffer + "1" + " b=", pPos := 7);
    FillOnePlaceholder(fac, marker, s1, rest, Plain(Int(1)), "1", n1, n1);
  }

  /**
   * `"a=%s b=%s"` filled by `with(1)` and `with(2)`: the entry reads
   * `a=1 b=2` and is committed by the second `with`, not by the first.
   */
  lemma TwoPlaceholders(fac: FormatterFactory, marker: Option<string>, s: EntryState)
    requires ValidState(s) && !s.commited
    ensures var sp := SetPatternState(s, Some("a=%s b=%s"));
      var w1 := WithState(fac, marker, sp.state, Plain(Int(1)));
      var w2 := WithState(fac, marker, w1.state, Plain(Int(2)));
      sp.outcome == Pass && w1.outcome == Pass && !w1.state.commited && w2.outcome == Pass &&
      w2.state.commited && w2.state.pattern.None? && w2.state.buffer == s.buffer + "a=1 b=2" &&
      w2.state.flushed == s.flushed + [s.buffer + "a=1 b=2"]
  {
    FirstOfTwoPlaceholders(fac, marker, s);
    var n1 := s.(pattern := Some("a=%s b=%s"), pPos := 7, buffer := s.buffer + "a=" + "1" + " b=");
    SecondOfTwoPlaceholders(fac, marker, n1);
    TwoPlaceholdersText(s.buffer);
  }

  /** `"a=%s b=%s"` at its second `%s`: `with(2)` writes `2` and commits the entry. */
  lemma SecondOfTwoPlaceholders(fac: FormatterFactory, marker: Option<string>, n: EntryState)
    requires !n.commited && n.pattern == Some("a=%s b=%s") && n.pPos == 7
    ensures WithState(fac, marker, n, Plain(Int(2))) ==
      Step(CommitState(n.(buffer := n.buffer + "2" + "", pPos := 9)), Pass)
  {
    var p, rest := "a=%s b=%s", [" b=", ""];
    TwoPlaceholdersPattern();
    assert p[7..] == Placeholders(rest[1..]);
    var n2 := n.(buffer := n.buffer + "2" + "", pPos := 9);
    FillOnePlaceholder(fac, marker, n, rest[1..], Plain(Int(2)), "2", n2, CommitState(n2));
  }

  /** `"a=%s b=%s"` is the template of the literals `a=`, ` b=` and the empty one. */
  lemma TwoPlaceholdersPattern()
    ensures Template("a=", [" b=", ""]) == "a=%s b=%s"
    ensures |Escape(" b=")| == 3 && Escape("") == ""
  {
    var rest := [" b=", ""];
    EscapePlain("a=");
    EscapePlain(" b=");
    assert Placeholders(rest[1..]) == "%s" by {
      assert rest[1..][1..] == [];
    }
    assert Template("a=", rest) == "a=" + ("%s" + " b=" + "%s");
  }

  lemma TwoPlaceholdersText(b: string)
    ensures b + "a=" + "1" + " b=" + "2" + "" == b + "a=1 b=2"
  {
    assert "a=" + "1" + " b=" + "2" + "" == "a=1 b=2";
  }

  /** A pattern without placeholders, `"100%% done"`: `setPattern` alone writes `100% done` and commits. */
  lemma NoPlaceholders(s: EntryState)
    requires ValidState(s) && !s.commited
    ensures var sp := SetPatternState(s, Some("100%% done"));
      sp.outcome == Pass && sp.state.commited && sp.state.buffer == s.buffer + "100% done" &&
      sp.state.flushed == s.flushed + [s.buffer + "100% done"]
  {
    var p := "100%% done";
    NoPlaceholdersPattern();
    var s0 := s.(pattern := Some(p), pPos := 0);
    assert p[0..] == p;
    ScanTemplateState(s0, "100% done", [], s0.(buffer := s.buffer + "100% done", pPos := 10));
  }

  /** `"100%% done"` is the pattern text of the literal `100% done`. */
  lemma NoPlaceholdersPattern()
    ensures Template("100% done", []) == "100%% done"
  {
    EscapePlain("100");
    EscapePlain(" done");
    EscapeAppend("100", "%" + " done");
    EscapeAppend("%", " done");
    assert Escape("%") == "%%";
    HundredPercentSplit();
  }

  lemma HundredPercentSplit()
    ensures "100% done" == "100" + ("%" + " done")
    ensures "100" + ("%%" + " done") == "100%% done"
  {
  }

  // ---------------------------------------------------------------------
  // The entry object
  // ---------------------------------------------------------------------

  class LocalLogEntry {
    const formatters: FormatterFactory
    /** The truncation marker; never empty (an empty one is stored as null). */
    const logErrorsMessage: Option<string>

    var commited: bool
    var error: Option<Exception>
    var pattern: Option<string>
    var pPos: nat
    /** The staging buffer of the subclass. */
    var buffer: string
    /** What `loggerService.entryFlushed(this)` was handed, one string per commit. */
    var flushed: seq<string>
    /** Failures reported through `LogLog.error`. */
    var diagnostics: seq<Exception>

    function State(): EntryState
      reads this
    {
      EntryState(commited, error, pattern, pPos, buffer, flushed, diagnostics)
    }

    ghost predicate Valid()
      reads this
    {
      ValidState(State()) && (logErrorsMessage.Some? ==> logErrorsMessage.value != "")
    }

    /** A new entry is committed (idle) with an empty buffer; an empty marker is normalised to none. */
    constructor (formatters: FormatterFactory, logErrorsMessage: Option<string>)
      ensures Valid() && this.formatters == formatters
      ensures this.logErrorsMessage ==
        if logErrorsMessage.Some? && logErrorsMessage.value != "" then logErrorsMessage else None
      ensures State() == EntryState(true, None, None, 0, "", [], [])
    {
      this.formatters := formatters;
      this.logErrorsMessage :=
        if logErrorsMessage.Some? && logErrorsMessage.value != "" then logErrorsMessage else None;
      commited, error, pattern, pPos := true, None, None, 0;
      buffer, flushed, diagnostics := "", [], [];
    }

    /** The constructor without a marker argument, when the marker property is unset. */
    constructor WithDefaultMessage(formatters: FormatterFactory)
      ensures Valid() && this.formatters == formatters
      ensures logErrorsMessage == Some(DefaultErrorMessage)
      ensures State() == EntryState(true, None, None, 0, "", [], [])
    {
      this.formatters := formatters;
      logErrorsMessage := Some(DefaultErrorMessage);
      commited, error, pattern, pPos := true, None, None, 0;
      buffer, flushed, diagnostics := "", [], [];
    }

    method SetCommited(b: bool)
      requires Valid()
      modifies this
      ensures Valid() && State() == old(State()).(commited := b)
    {
      commited := b;
    }

    method Commit()
      requires Valid()
      modifies this
      ensures Valid() && State() == CommitState(old(State()))
    {
      if commited {
        return;
      }
      flushed := flushed + [buffer];
      commited := true;
      pattern := None;
      error := None;
    }

    method SetPattern(p: Option<string>) returns (r: Outcome)
      requires Valid()
      modifies this
      ensures Valid() && Step(State(), r) == SetPatternState(old(State()), p)
    {
      if p.None? {
        return Throw(IllegalArgument);
      }
      pattern := p;
      pPos := 0;
      AppendNextPatternChunk();
      r := Pass;
    }

    /** `appendNextPatternChank()`: copy the literal run at the cursor, then commit at the end of the pattern. */
    method AppendNextPatternChunk()
      requires Valid() && pattern.Some?
      modifies this
      ensures Valid() && State() == ScanState(old(State()))
    {
      CopyLiteralRun();
      if pPos == |pattern.value| {
        Commit();
      }
    }

    /** The loop of `appendNextPatternChank()`: each literal character, `%%` as one `%`, up to a `%x` token. */
    method CopyLiteralRun()
      requires Valid() && pattern.Some?
      modifies this`buffer, this`pPos
      ensures Valid()
      ensures var s := old(State());
        var c := Scan(s.pattern.value[s.pPos..]);
        State() == s.(buffer := s.buffer + c.text, pPos := s.pPos + c.consumed)
    {
      var p := pattern.value;
      var len := |p|;
      ScanFromIsScan(p, pPos);
      ghost var c0 := ScanFrom(p, pPos);
      ghost var total, n := buffer + c0.text, pPos + c0.consumed;
      while pPos < len
        invariant old(pPos) <= pPos <= len
        invariant ScanAccount(p, pPos, buffer, total, n)
        decreases len - pPos
      {
        ghost var i, b := pPos, buffer;
        var ch := p[pPos];
        if ch == '%' && pPos + 1 < len {
          if p[pPos + 1] != '%' {
            break;
          }
          pPos := pPos + 1;
        }
        buffer := buffer + [ch];
        pPos := pPos + 1;
        ScanFromCopies(p, i, pPos, b, buffer, total, n);
      }
    }

    method CheckPlaceholder() returns (r: Outcome)
      requires Valid()
      modifies this
      ensures Valid() && Step(State(), r) == CheckPlaceholderState(old(State()))
    {
      if pattern.None? {
        return Throw(IllegalState);
      }
      if pPos + 1 >= |pattern.value| {
        return Throw(IllegalState);
      }
      var ch1 := pattern.value[pPos];
      var ch2 := pattern.value[pPos + 1];
      if ch1 != '%' || ch2 != 's' {
        return Throw(IllegalArgument);
      }
      pPos := pPos + 2;
      r := Pass;
    }

    method CheckAndCommit() returns (r: Outcome)
      requires Valid()
      modifies this
      ensures Valid() && Step(State(), r) == CheckAndCommitState(old(State()))
    {
      if commited {
        return Pass;
      }
      if pattern.None? {
        return Throw(NullPointer);
      }
      if pPos + 1 != |pattern.value| {
        return Throw(IllegalState);
      }
      Commit();
      r := Pass;
    }

    /** `error(msg, e)`. */
    method RecordError(e: Exception)
      requires Valid()
      modifies this
      ensures Valid() && State() == RecordErrorState(logErrorsMessage, old(State()), e)
    {
      error := Some(e);
      if logErrorsMessage.None? {
        diagnostics := diagnostics + [e];
      } else {
        buffer := buffer + logErrorsMessage.value;
      }
    }

    /** The subclasses' scalar appends. */
    method AppendScalar(x: Scalar) returns (r: Outcome)
      requires Valid()
      modifies this
      ensures Valid() && Step(State(), r) == AppendState(formatters, logErrorsMessage, old(State()), Plain(x))
    {
      var rd := ScalarText(x);
      buffer := buffer + rd.Output();
      r := if rd.Threw? then Throw(rd.e) else Pass;
    }

    /** `append(Object)`. */
    method AppendObject(o: Option<Obj>)
      requires Valid()
      modifies this
      ensures Valid() && State() == AbsorbState(logErrorsMessage, old(State()), ArgRendering(formatters, Object(o)))
    {
      if o.None? {
        buffer := buffer + Null;
        return;
      }
      var formatter := formatters.resolve(o.value);
      var rd := formatters.render(formatter, o.value);
      buffer := buffer + rd.Output();
      if rd.Threw? {
        RecordError(rd.e);
      }
    }

    /** `append(Loggable)`. */
    method AppendLoggable(l: Option<Rendering>)
      requires Valid()
      modifies this
      ensures Valid() && State() == AbsorbState(logErrorsMessage, old(State()), ArgRendering(formatters, Loggable(l)))
    {
      if l.None? {
        buffer := buffer + Null;
        return;
      }
      buffer := buffer + l.value.Output();
      if l.value.Threw? {
        RecordError(l.value.e);
      }
    }

    /**
     * One element of an array or iterable: `null`, or what the element's
     * formatter writes, the formatter being resolved on the first non-null
     * element and reused for all later ones.
     */
    method RenderElement(xs: seq<Option<Obj>>, i: nat, formatter: Option<Formatter>)
      returns (next: Option<Formatter>, rd: Rendering)
      requires i < |xs|
      requires formatter == if FirstNonNull(xs) < i then Some(ElementFormatter(formatters, xs)) else None
      ensures next == if FirstNonNull(xs) < i + 1 then Some(ElementFormatter(formatters, xs)) else None
      ensures rd == Piece(formatters, ElementFormatter(formatters, xs), xs[i])
    {
      FormatterSlot(formatters, xs, i, formatter);
      next := formatter;
      var obj := xs[i];
      if obj.Some? {
        if next.None? {
          next := Some(formatters.resolve(obj.value));
        }
        rd := formatters.render(next.value, obj.value);
      } else {
        rd := Rendered(Null);
      }
    }

    /**
     * The loop of `append(T[], separator)`: the text it writes after the
     * entry's current contents, up to and including the output of the
     * first formatter that throws.
     */
    method RenderArray(xs: seq<Option<Obj>>, separator: string) returns (rd: Rendering)
      ensures rd == RenderElements(formatters, xs, separator)
    {
      ghost var fmt := ElementFormatter(formatters, xs);
      var out := "[";
      var formatter: Option<Formatter> := None;
      var i := 0;
      while i < |xs|
        invariant 0 <= i <= |xs|
        invariant formatter == if FirstNonNull(xs) < i then Some(fmt) else None
        invariant i <= FirstFailure(formatters, fmt, xs)
        invariant out == "[" + Joined(formatters, fmt, xs, separator, i)
      {
        ghost var joined := Joined(formatters, fmt, xs, separator, i);
        ghost var pending := if i > 0 then separator else "";
        if i > 0 {
          out := out + separator;
        } else {
          assert out == out + pending;
        }
        var piece;
        formatter, piece := RenderElement(xs, i, formatter);
        out := out + piece.Output();
        AppendAssoc("[", joined, pending);
        AppendAssoc("[", joined + pending, piece.Output());
        if piece.Threw? {
          ElementsFail(formatters, xs, separator, i);
          return Threw(out, piece.e);
        }
        i := i + 1;
      }
      ElementsDone(formatters, xs, separator);
      rd := Rendered(out + "]");
    }

    /** The loop of `append(Iterable, separator)`: the separator is written after an element when another follows. */
    method RenderIterable(xs: seq<Option<Obj>>, separator: string) returns (rd: Rendering)
      ensures rd == RenderElements(formatters, xs, separator)
    {
      ghost var fmt := ElementFormatter(formatters, xs);
      var out := "[";
      var formatter: Option<Formatter> := None;
      var i := 0;
      while i < |xs|
        invariant 0 <= i <= |xs|
        invariant formatter == if FirstNonNull(xs) < i then Some(fmt) else None
        invariant i <= FirstFailure(formatters, fmt, xs)
        invariant IterableText(formatters, fmt, xs, separator, i, out)
      {
        ghost var before := out;
        var piece;
        formatter, piece := RenderElement(xs, i, formatter);
        out := out + piece.Output();
        IterablePiece(formatters, fmt, xs, separator, i, before, out);
        if piece.Threw? {
          ElementsFail(formatters, xs, separator, i);
          return Threw(out, piece.e);
        }
        ghost var mid := out;
        if i + 1 < |xs| {
          out := out + separator;
        }
        IterableSeparator(formatters, fmt, xs, separator, i, mid, out);
        i := i + 1;
      }
      ElementsDone(formatters, xs, separator);
      rd := Rendered(out + "]");
    }

    /** `append(T[], separator)`: the array's text, a failure inside it recorded. */
    method AppendArray(elements: Option<seq<Option<Obj>>>, separator: string)
      requires Valid()
      modifies this
      ensures Valid()
      ensures State() == AbsorbState(logErrorsMessage, old(State()), ArgRendering(formatters, Array(elements, separator)))
    {
      if elements.None? {
        buffer := buffer + Null;
        return;
      }
      var rd := RenderArray(elements.value, separator);
      buffer := buffer + rd.Output();
      if rd.Threw? {
        RecordError(rd.e);
      }
    }

    /** `append(Iterable, separator)`: the iterable's text, a failure inside it recorded. */
    method AppendIterable(iterable: Option<seq<Option<Obj>>>, separator: string)
      requires Valid()
      modifies this
      ensures Valid()
      ensures State() == AbsorbState(logErrorsMessage, old(State()), ArgRendering(formatters, Iterable(iterable, separator)))
    {
      if iterable.None? {
        buffer := buffer + Null;
        return;
      }
      var rd := RenderIterable(iterable.value, separator);
      buffer := buffer + rd.Output();
      if rd.Threw? {
        RecordError(rd.e);
      }
    }

    /** The overload set of `append`. */
    method Append(v: Arg) returns (r: Outcome)
      requires Valid()
      modifies this
      ensures Valid() && Step(State(), r) == AppendState(formatters, logErrorsMessage, old(State()), v)
    {
      r := Pass;
      match v
      case Plain(x) => r := AppendScalar(x);
      case Object(o) => AppendObject(o);
      case Loggable(l) => AppendLoggable(l);
      case Array(xs, sep) => AppendArray(xs, sep);
      case Iterable(xs, sep) => AppendIterable(xs, sep);
    }

    method AppendLast(v: Arg) returns (r: Outcome)
      requires Valid()
      modifies this
      ensures Valid() && Step(State(), r) == AppendLastState(formatters, logErrorsMessage, old(State()), v)
    {
      r := Append(v);
      if r.Throw? {
        return;
      }
      Commit();
    }

    method With(v: Arg) returns (r: Outcome)
      requires Valid()
      modifies this
      ensures Valid() && Step(State(), r) == WithState(formatters, logErrorsMessage, old(State()), v)
    {
      r := CheckPlaceholder();
      if r.Throw? {
        return;
      }
      r := Append(v);
      if r.Throw? {
        return;
      }
      AppendNextPatternChunk();
    }

    method WithLast(v: Arg) returns (r: Outcome)
      requires Valid()
      modifies this
      ensures Valid() && Step(State(), r) == WithLastState(formatters, logErrorsMessage, old(State()), v)
    {
      r := With(v);
      if r.Throw? {
        return;
      }
      r := CheckAndCommit();
    }
  }
}
