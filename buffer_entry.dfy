/**
 * The older entry base class, `gflogger.AbstractBufferLocalLogEntry`:
 * the same scanner as the current class, a stricter `checkPlaceholder`
 * (a `%s` must be followed by at least one more pattern character),
 * `appendIf` guards, `endWith` (a `with` followed by `commit`) and an
 * `append(Object)` that records a `BufferOverflowException` instead of
 * throwing it. Every other failure of an append reaches the caller.
 *
 * `Object.toString` followed by the subclass' `append(CharSequence)` is
 * foreign: it is given by `show`, which may end in any exception,
 * `BufferOverflowException` among them.
 */
module BufferEntry {
  import opened EntryCore
  import L = LocalEntry

  /** The argument of one of the `append`, `appendIf`, `with` and `endWith` overloads. */
  datatype Arg =
    | Plain(x: Scalar)
    | Object(o: Option<Obj>)
    | Loggable(appendTo: Option<Rendering>)

  // ---------------------------------------------------------------------
  // The state machine
  // ---------------------------------------------------------------------

  /**
   * What an append writes: the scalar's text; `null` for a null object,
   * otherwise the object's text; what a loggable's `appendTo` writes, a
   * null loggable being dereferenced unguarded.
   */
  function ArgRendering(show: Obj -> Rendering, v: Arg): Rendering
  {
    match v
    case Plain(x) => ScalarText(x)
    case Object(o) => if o.None? then Rendered(Null) else show(o.value)
    case Loggable(l) => if l.None? then Threw("", NullPointer) else l.value
  }

  /**
   * Any `append` overload. Only `append(Object)` catches, and only a
   * `BufferOverflowException`, which becomes the entry's error and a
   * `LogLog` report; every other exception propagates.
   */
  function AppendState(show: Obj -> Rendering, s: EntryState, v: Arg): Step
  {
    var rd := ArgRendering(show, v);
    var t := s.(buffer := s.buffer + rd.Output());
    if rd.Rendered? then Step(t, Pass)
    else if v.Object? && rd.e == BufferOverflow then
      Step(t.(error := Some(rd.e), diagnostics := t.diagnostics + [rd.e]), Pass)
    else Step(t, Throw(rd.e))
  }

  /** `appendIf(condition, v)`. */
  function AppendIfState(show: Obj -> Rendering, s: EntryState, condition: bool, v: Arg): Step
  {
    if condition then AppendState(show, s, v) else Step(s, Pass)
  }

  /**
   * `checkPlaceholder()`: a committed entry has no pattern, and reading
   * its length throws NullPointerException.
   */
  function CheckPlaceholderState(s: EntryState): Step
  {
    if s.pattern.None? then Step(s, Throw(NullPointer))
    else if s.pPos + 2 >= |s.pattern.value| then Step(s, Throw(IllegalState))
    else if s.pattern.value[s.pPos] != '%' || s.pattern.value[s.pPos + 1] != 's' then Step(s, Throw(IllegalArgument))
    else Step(s.(pPos := s.pPos + 2), Pass)
  }

  /** `with(v)`: consume the `%s`, append `v`, scan on. */
  function WithState(show: Obj -> Rendering, s: EntryState, v: Arg): (r: Step)
    requires ValidState(s)
    ensures ValidState(r.state)
  {
    var c := CheckPlaceholderState(s);
    if c.outcome.Throw? then c
    else
      var a := AppendState(show, c.state, v);
      if a.outcome.Throw? then a else Step(ScanState(a.state), Pass)
  }

  /** `endWith(v)`: `with(v)` then `commit()`. */
  function EndWithState(show: Obj -> Rendering, s: EntryState, v: Arg): (r: Step)
    requires ValidState(s)
    ensures ValidState(r.state)
  {
    var w := WithState(show, s, v);
    if w.outcome.Throw? then w else Step(CommitState(w.state), Pass)
  }

  /** A chain of `with` calls, stopping at the first that throws. */
  function WithAll(show: Obj -> Rendering, s: EntryState, vs: seq<Arg>): (r: Step)
    requires ValidState(s)
    ensures ValidState(r.state)
    decreases |vs|
  {
    if vs == [] then Step(s, Pass)
    else
      var w := WithState(show, s, vs[0]);
      if w.outcome.Throw? then w else WithAll(show, w.state, vs[1..])
  }

  // ---------------------------------------------------------------------
  // Properties of the state machine
  // ---------------------------------------------------------------------

  /**
   * The two variants of `checkPlaceholder` accept the same `%s` tokens
   * and move the cursor alike, except that the older one also refuses a
   * `%s` in the last two positions of the pattern; on a committed entry
   * the current one throws IllegalStateException, the older one
   * NullPointerException.
   */
  lemma StricterPlaceholderBound(s: EntryState)
    ensures CheckPlaceholderState(s).outcome.Pass? <==>
      L.CheckPlaceholderState(s).outcome.Pass? && s.pPos + 2 != |s.pattern.value|
    ensures CheckPlaceholderState(s).outcome.Pass? ==>
      CheckPlaceholderState(s).state == L.CheckPlaceholderState(s).state
    ensures CheckPlaceholderState(s).outcome.Throw? ==> CheckPlaceholderState(s).state == s
    ensures s.pattern.None? ==>
      CheckPlaceholderState(s).outcome == Throw(NullPointer) &&
      L.CheckPlaceholderState(s).outcome == Throw(IllegalState)
  {
  }

  /**
   * The outcomes of `append(Object)`: a null object writes `null`;
   * a buffer overflow is recorded and the call returns normally; any other
   * exception propagates; the text written before the failure stays.
   */
  lemma AppendObjectOutcomes(show: Obj -> Rendering, s: EntryState, o: Option<Obj>)
    ensures o.None? ==> AppendState(show, s, Object(o)) == Step(s.(buffer := s.buffer + Null), Pass)
    ensures o.Some? && show(o.value).Threw? && show(o.value).e == BufferOverflow ==>
      AppendState(show, s, Object(o)) ==
        Step(s.(buffer := s.buffer + show(o.value).partial, error := Some(BufferOverflow),
                diagnostics := s.diagnostics + [BufferOverflow]), Pass)
    ensures o.Some? && show(o.value).Threw? && show(o.value).e != BufferOverflow ==>
      AppendState(show, s, Object(o)) == Step(s.(buffer := s.buffer + show(o.value).partial), Throw(show(o.value).e))
  {
  }

  /** `appendIf(false, v)` changes nothing; `appendIf(true, v)` is `append(v)`. */
  lemma AppendIfGuard(show: Obj -> Rendering, s: EntryState, v: Arg)
    ensures AppendIfState(show, s, false, v) == Step(s, Pass)
    ensures AppendIfState(show, s, true, v) == AppendState(show, s, v)
  {
  }

  /**
   * After a `with` that returns normally, `endWith` leaves the entry
   * committed, and the entry is handed to the logger service once in all:
   * by the scanner when the pattern was used up, by `commit` otherwise.
   */
  lemma EndWithCommits(show: Obj -> Rendering, s: EntryState, v: Arg)
    requires ValidState(s) && !s.commited
    requires WithState(show, s, v).outcome.Pass?
    ensures var r := EndWithState(show, s, v);
      r.outcome.Pass? && r.state.commited && r.state.pattern.None? && r.state.error.None? &&
      |r.state.flushed| == |s.flushed| + 1
  {
    var c := CheckPlaceholderState(s);
    var a := AppendState(show, c.state, v);
    assert !a.state.commited && |a.state.flushed| == |s.flushed|;
    CommitIdempotent(a.state.(buffer := a.state.buffer + Scan(a.state.pattern.value[a.state.pPos..]).text,
                              pPos := a.state.pPos + Scan(a.state.pattern.value[a.state.pPos..]).consumed));
  }

  /**
   * The older variant refuses a placeholder at the very end of a pattern:
   * after `setPattern(first + "%s")` on an open entry, `with` throws
   * IllegalStateException whatever the value, and nothing changes.
   */
  lemma TrailingPlaceholderRejected(show: Obj -> Rendering, s: EntryState, first: string, v: Arg)
    requires ValidState(s) && !s.commited
    ensures var sp := SetPatternState(s, Some(Template(first, [""])));
      sp.outcome == Pass && !sp.state.commited &&
      WithState(show, sp.state, v) == Step(sp.state, Throw(IllegalState))
  {
    var p := Template(first, [""]);
    var s0 := s.(pattern := Some(p), pPos := 0);
    var s1 := s0.(buffer := s.buffer + first, pPos := |Escape(first)|);
    assert p[0..] == p;
    ScanTemplateState(s0, first, [""], s1);
    assert Placeholders([""]) == "%s";
    assert |p| == |Escape(first)| + 2;
  }

  /** `with` on a cursor that rests on `%s` with more pattern after it, and a value whose whole text is written. */
  lemma WithAtPlaceholder(show: Obj -> Rendering, s: EntryState, v: Arg, t: string, r: EntryState)
    requires ValidState(s) && s.pattern.Some? && s.pPos + 2 < |s.pattern.value|
    requires s.pattern.value[s.pPos] == '%' && s.pattern.value[s.pPos + 1] == 's'
    requires ArgRendering(show, v) == Rendered(t)
    requires ScanState(s.(pPos := s.pPos + 2, buffer := s.buffer + t)) == r
    ensures WithState(show, s, v) == Step(r, Pass)
  {
    AppendRendered(show, s.(pPos := s.pPos + 2), v, t);
  }

  /** An append whose whole text was written extends the buffer by that text and nothing else. */
  lemma AppendRendered(show: Obj -> Rendering, s: EntryState, v: Arg, t: string)
    requires ArgRendering(show, v) == Rendered(t)
    ensures AppendState(show, s, v) == Step(s.(buffer := s.buffer + t), Pass)
  {
  }

  /** Every argument of `vs` renders completely, as the matching text of `ts`. */
  predicate RendersAll(show: Obj -> Rendering, vs: seq<Arg>, ts: seq<string>)
  {
    |vs| == |ts| && forall i :: 0 <= i < |vs| ==> ArgRendering(show, vs[i]) == Rendered(ts[i])
  }

  lemma RendersAllTail(show: Obj -> Rendering, vs: seq<Arg>, ts: seq<string>)
    requires RendersAll(show, vs, ts) && vs != []
    ensures ArgRendering(show, vs[0]) == Rendered(ts[0]) && RendersAll(show, vs[1..], ts[1..])
  {
    forall i | 0 <= i < |vs[1..]|
      ensures ArgRendering(show, vs[1..][i]) == Rendered(ts[1..][i])
    {
      assert vs[1..][i] == vs[i + 1] && ts[1..][i] == ts[i + 1];
    }
  }

  /** A chain of `with` calls whose first call passes goes on from the state that call left. */
  lemma WithAllStep(show: Obj -> Rendering, s: EntryState, vs: seq<Arg>, w: EntryState)
    requires ValidState(s) && vs != []
    requires WithState(show, s, vs[0]) == Step(w, Pass)
    ensures ValidState(w) && WithAll(show, s, vs) == WithAll(show, w, vs[1..])
  {
  }

  /** A literal is empty exactly when its escaped form is. */
  lemma EscapeEmpty(t: string)
    ensures Escape(t) == "" <==> t == ""
  {
    if t != "" {
      assert |Escape(t)| >= 1;
    }
  }

  /** A placeholder part whose last literal is not empty goes on after its first `%s`. */
  lemma PlaceholderFollowed(p: string, k: nat, rest: seq<string>)
    requires k <= |p| && rest != [] && rest[|rest| - 1] != ""
    requires p[k..] == Placeholders(rest)
    ensures k + 2 < |p|
  {
    PlaceholdersAfterLiteral(p, k, rest);
    if rest[1..] == [] {
      assert rest[0] == rest[|rest| - 1];
      EscapeEmpty(rest[0]);
    } else {
      PlaceholdersLength(rest[1..]);
    }
  }

  /** One `with` on a template positioned at its placeholders, some pattern text following the `%s`. */
  lemma FillOnePlaceholder(show: Obj -> Rendering, s: EntryState, rest: seq<string>, v: Arg, t: string,
                           n: EntryState, w: EntryState)
    requires ValidState(s) && !s.commited && s.pattern.Some? && rest != []
    requires rest[|rest| - 1] != ""
    requires s.pPos <= |s.pattern.value| && s.pattern.value[s.pPos..] == Placeholders(rest)
    requires ArgRendering(show, v) == Rendered(t)
    requires n == s.(buffer := s.buffer + t + rest[0], pPos := s.pPos + 2 + |Escape(rest[0])|)
    requires w == if rest[1..] == [] then CommitState(n) else n
    ensures WithState(show, s, v) == Step(w, Pass)
  {
    var p := s.pattern.value;
    var k := s.pPos;
    var a := s.(pPos := k + 2, buffer := s.buffer + t);
    PlaceholderAhead(p, k, rest);
    PlaceholderFollowed(p, k, rest);
    ScanTemplateState(a, rest[0], rest[1..], n);
    WithAtPlaceholder(show, s, v, t, w);
  }

  /** The `with` chain that fills every remaining placeholder of a template, in order. */
  lemma {:induction false} FillPlaceholders(show: Obj -> Rendering, s: EntryState,
                                            rest: seq<string>, vs: seq<Arg>, ts: seq<string>)
    requires ValidState(s) && !s.commited && s.pattern.Some?
    requires |rest| == |vs| && rest != [] && rest[|rest| - 1] != "" && RendersAll(show, vs, ts)
    requires s.pPos <= |s.pattern.value| && s.pattern.value[s.pPos..] == Placeholders(rest)
    ensures WithAll(show, s, vs) ==
      Step(CommitState(s.(buffer := s.buffer + Interleave(ts, rest), pPos := |s.pattern.value|)), Pass)
    decreases |rest|
  {
    var p := s.pattern.value;
    var n := s.(buffer := s.buffer + ts[0] + rest[0], pPos := s.pPos + 2 + |Escape(rest[0])|);
    var w := if rest[1..] == [] then CommitState(n) else n;
    RendersAllTail(show, vs, ts);
    FillOnePlaceholder(show, s, rest, vs[0], ts[0], n, w);
    WithAllStep(show, s, vs, w);
    PlaceholdersAfterLiteral(p, s.pPos, rest);
    PlaceholdersLength(rest[1..]);
    var text := s.buffer + Interleave(ts, rest);
    InterleaveFirst(s.buffer, ts, rest);
    if rest[1..] == [] {
      assert vs[1..] == [] && ts[1..] == [];
      assert n == s.(buffer := text, pPos := |p|);
    } else {
      assert rest[1..][|rest[1..]| - 1] == rest[|rest| - 1];
      FillPlaceholders(show, n, rest[1..], vs[1..], ts[1..]);
      assert n.(buffer := text, pPos := |p|) == s.(buffer := text, pPos := |p|);
    }
  }

  /**
   * The placeholder round trip of the older variant: for a template whose
   * last literal is not empty, setting it and then calling `with` with one
   * value per placeholder prints the literals and the values interleaved,
   * in order, and commits exactly once, by itself.
   */
  lemma {:induction false} FormatRoundTrip(show: Obj -> Rendering, s: EntryState,
                                           first: string, rest: seq<string>, vs: seq<Arg>, ts: seq<string>)
    requires ValidState(s) && !s.commited
    requires |rest| == |vs| && RendersAll(show, vs, ts)
    requires rest != [] ==> rest[|rest| - 1] != ""
    ensures var sp := SetPatternState(s, Some(Template(first, rest)));
      var r := WithAll(show, sp.state, vs);
      var text := s.buffer + first + Interleave(ts, rest);
      sp.outcome == Pass && r.outcome == Pass &&
      r.state == s.(commited := true, pattern := None, error := None,
                    pPos := |Template(first, rest)|, buffer := text, flushed := s.flushed + [text])
  {
    var p := Template(first, rest);
    var s0 := s.(pattern := Some(p), pPos := 0);
    var s1 := s0.(buffer := s.buffer + first, pPos := |Escape(first)|);
    assert p[0..] == p;
    ScanTemplateState(s0, first, rest, s1);
    if rest == [] {
      assert vs == [] && ts == [];
      assert s.buffer + first + Interleave(ts, rest) == s1.buffer;
      assert |p| == s1.pPos;
    } else {
      assert p[s1.pPos..] == Placeholders(rest);
      FillPlaceholders(show, s1, rest, vs, ts);
    }
  }

  // ---------------------------------------------------------------------
  // The entry object
  // ---------------------------------------------------------------------

  class BufferLogEntry {
    /** `o.toString()` written by the subclass' `append(CharSequence)`. */
    const show: Obj -> Rendering

    var commited: bool
    var error: Option<Exception>
    var pattern: Option<string>
    var pPos: nat
    /** The staging buffer of the subclass. */
    var buffer: string
    /** What `loggerService.entryFlushed(this)` was handed, one string per commit. */
    var flushed: seq<string>
    /** Failures reported through `LogLog.error`. */
    var diagnostics: seq<Exception>

    function State(): EntryState
      reads this
    {
      EntryState(commited, error, pattern, pPos, buffer, flushed, diagnostics)
    }

    ghost predicate Valid()
      reads this
    {
      ValidState(State())
    }

    /** A new entry is committed (idle) with an empty buffer. */
    constructor (show: Obj -> Rendering)
      ensures Valid() && this.show == show
      ensures State() == EntryState(true, None, None, 0, "", [], [])
    {
      this.show := show;
      commited, error, pattern, pPos := true, None, None, 0;
      buffer, flushed, diagnostics := "", [], [];
    }

    method SetCommited(b: bool)
      requires Valid()
      modifies this
      ensures Valid() && State() == old(State()).(commited := b)
    {
      commited := b;
    }

    method Commit()
      requires Valid()
      modifies this
      ensures Valid() && State() == CommitState(old(State()))
    {
      if commited {
        return;
      }
      flushed := flushed + [buffer];
      commited := true;
      pattern := None;
      error := None;
    }

    method SetPattern(p: Option<string>) returns (r: Outcome)
      requires Valid()
      modifies this
      ensures Valid() && Step(State(), r) == SetPatternState(old(State()), p)
    {
      if p.None? {
        return Throw(IllegalArgument);
      }
      pattern := p;
      pPos := 0;
      AppendNextPatternChunk();
      r := Pass;
    }

    /** `appendNextPatternChank()`: copy the literal run at the cursor, then commit at the end of the pattern. */
    method AppendNextPatternChunk()
      requires Valid() && pattern.Some?
      modifies this
      ensures Valid() && State() == ScanState(old(State()))
    {
      CopyLiteralRun();
      if pPos == |pattern.value| {
        Commit();
      }
    }

    /** The loop of `appendNextPatternChank()`: each literal character, `%%` as one `%`, up to a `%x` token. */
    method CopyLiteralRun()
      requires Valid() && pattern.Some?
      modifies this`buffer, this`pPos
      ensures Valid()
      ensures var s := old(State());
        var c := Scan(s.pattern.value[s.pPos..]);
        State() == s.(buffer := s.buffer + c.text, pPos := s.pPos + c.consumed)
    {
      var p := pattern.value;
      var len := |p|;
      ScanFromIsScan(p, pPos);
      ghost var c0 := ScanFrom(p, pPos);
      ghost var total, n := buffer + c0.text, pPos + c0.consumed;
      while pPos < len
        invariant old(pPos) <= pPos <= len
        invariant ScanAccount(p, pPos, buffer, total, n)
        decreases len - pPos
      {
        ghost var i, b := pPos, buffer;
        var ch := p[pPos];
        if ch == '%' && pPos + 1 < len {
          if p[pPos + 1] != '%' {
            break;
          }
          pPos := pPos + 1;
        }
        buffer := buffer + [ch];
        pPos := pPos + 1;
        ScanFromCopies(p, i, pPos, b, buffer, total, n);
      }
    }

    method CheckPlaceholder() returns (r: Outcome)
      requires Valid()
      modifies this
      ensures Valid() && Step(State(), r) == CheckPlaceholderState(old(State()))
    {
      if pattern.None? {
        return Throw(NullPointer);
      }
      if pPos + 2 >= |pattern.value| {
        return Throw(IllegalState);
      }
      var ch1 := pattern.value[pPos];
      var ch2 := pattern.value[pPos + 1];
      if ch1 != '%' || ch2 != 's' {
        return Throw(IllegalArgument);
      }
      pPos := pPos + 2;
      r := Pass;
    }

    /** The subclasses' scalar appends. */
    method AppendScalar(x: Scalar) returns (r: Outcome)
      requires Valid()
      modifies this
      ensures Valid() && Step(State(), r) == AppendState(show, old(State()), Plain(x))
    {
      var rd := ScalarText(x);
      buffer := buffer + rd.Output();
      r := if rd.Threw? then Throw(rd.e) else Pass;
    }

    /** `append(Object)`: only a buffer overflow is caught. */
    method AppendObject(o: Option<Obj>) returns (r: Outcome)
      requires Valid()
      modifies this
      ensures Valid() && Step(State(), r) == AppendState(show, old(State()), Object(o))
    {
      var rd := if o.None? then Rendered(Null) else show(o.value);
      buffer := buffer + rd.Output();
      r := Pass;
      if rd.Threw? {
        if rd.e == BufferOverflow {
          error := Some(rd.e);
          diagnostics := diagnostics + [rd.e];
        } else {
          r := Throw(rd.e);
        }
      }
    }

    /** `append(Loggable)`: `loggable.appendTo(this)`, a null loggable throwing NullPointerException. */
    method AppendLoggable(l: Option<Rendering>) returns (r: Outcome)
      requires Valid()
      modifies this
      ensures Valid() && Step(State(), r) == AppendState(show, old(State()), Loggable(l))
    {
      if l.None? {
        return Throw(NullPointer);
      }
      buffer := buffer + l.value.Output();
      r := if l.value.Threw? then Throw(l.value.e) else Pass;
    }

    /** The overload set of `append`. */
    method Append(v: Arg) returns (r: Outcome)
      requires Valid()
      modifies this
      ensures Valid() && Step(State(), r) == AppendState(show, old(State()), v)
    {
      match v
      case Plain(x) => r := AppendScalar(x);
      case Object(o) => r := AppendObject(o);
      case Loggable(l) => r := AppendLoggable(l);
    }

    method AppendIf(condition: bool, v: Arg) returns (r: Outcome)
      requires Valid()
      modifies this
      ensures Valid() && Step(State(), r) == AppendIfState(show, old(State()), condition, v)
    {
      r := Pass;
      if condition {
        r := Append(v);
      }
    }

    method With(v: Arg) returns (r: Outcome)
      requires Valid()
      modifies this
      ensures Valid() && Step(State(), r) == WithState(show, old(State()), v)
    {
      r := CheckPlaceholder();
      if r.Throw? {
        return;
      }
      r := Append(v);
      if r.Throw? {
        return;
      }
      AppendNextPatternChunk();
    }

    method EndWith(v: Arg) returns (r: Outcome)
      requires Valid()
      modifies this
      ensures Valid() && Step(State(), r) == EndWithState(show, old(State()), v)
    {
      r := With(v);
      if r.Throw? {
        return;
      }
      Commit();
    }
  }
}
