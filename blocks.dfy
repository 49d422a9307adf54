/**
 * The shape shared by the two hand-written YAML readers of the scripts (the
 * flat `categories.yaml` reader of the migration and `parseMapping` of the
 * structure validator): lines are read in order; a marker line closes the
 * record being built, if any, and opens a new one; every other line can only
 * change the open record, and is ignored while none is open; at the end of
 * input the open record is closed.
 */
module Blocks {
  import opened Strings

  /** How one reader recognises, starts, extends and closes a record. */
  datatype Grammar<!T, R> = Grammar(
    opens: string -> bool,
    start: string -> T,
    update: (T, string) -> T,
    close: T -> R)

  /** The records closed so far and the one being built. */
  datatype State<T, R> = State(done: seq<R>, cur: Option<T>)

  /** The records a state stands for once the input ends. */
  function Finish<T, R>(g: Grammar<T, R>, s: State<T, R>): seq<R> {
    s.done + (if s.cur.Some? then [g.close(s.cur.value)] else [])
  }

  /** One line of input. */
  function Step<T, R>(g: Grammar<T, R>, s: State<T, R>, line: string): State<T, R> {
    if g.opens(line) then State(Finish(g, s), Some(g.start(line)))
    else if s.cur.Some? then State(s.done, Some(g.update(s.cur.value, line)))
    else s
  }

  /** All lines, in order, from state `s`. */
  function Run<T, R>(g: Grammar<T, R>, s: State<T, R>, lines: seq<string>): State<T, R> {
    if |lines| == 0 then s else Step(g, Run(g, s, lines[..|lines| - 1]), lines[|lines| - 1])
  }

  /** What the reader returns for `lines`. */
  function Parse<T, R>(g: Grammar<T, R>, lines: seq<string>): seq<R> {
    Finish(g, Run(g, State([], None), lines))
  }

  /** The open record after the non-marker lines `lines`. */
  function UpdateAll<T, R>(g: Grammar<T, R>, t: T, lines: seq<string>): T {
    if |lines| == 0 then t else g.update(UpdateAll(g, t, lines[..|lines| - 1]), lines[|lines| - 1])
  }

  /** The record built from one marker line and the lines that follow it up to the next marker. */
  function Block<T, R>(g: Grammar<T, R>, head: string, body: seq<string>): R {
    g.close(UpdateAll(g, g.start(head), body))
  }

  predicate NoMarker<T, R>(g: Grammar<T, R>, lines: seq<string>) {
    forall i :: 0 <= i < |lines| ==> !g.opens(lines[i])
  }

  /** The number of marker lines. */
  function CountMarkers<T, R>(g: Grammar<T, R>, lines: seq<string>): nat {
    if |lines| == 0 then 0
    else CountMarkers(g, lines[..|lines| - 1]) + (if g.opens(lines[|lines| - 1]) then 1 else 0)
  }

  /** Reading one more line is one more step. */
  lemma RunSnoc<T, R>(g: Grammar<T, R>, s: State<T, R>, lines: seq<string>, i: nat)
    requires i < |lines|
    ensures Run(g, s, lines[..i + 1]) == Step(g, Run(g, s, lines[..i]), lines[i])
  {
    assert lines[..i + 1][..i] == lines[..i];
  }

  /** A marker line closes the open record and opens its own. */
  lemma StepOpens<T, R>(g: Grammar<T, R>, s: State<T, R>, line: string)
    requires g.opens(line)
    ensures Step(g, s, line) == State(Finish(g, s), Some(g.start(line)))
  {
  }

  /** Any other line extends the open record, or is ignored when none is open. */
  lemma StepExtends<T, R>(g: Grammar<T, R>, s: State<T, R>, line: string)
    requires !g.opens(line)
    ensures Step(g, s, line) == if s.cur.Some? then State(s.done, Some(g.update(s.cur.value, line))) else s
  {
  }

  /** Reading `a` then `b` is reading `a + b`. */
  lemma {:induction false} RunAppend<T, R>(g: Grammar<T, R>, s: State<T, R>, a: seq<string>, b: seq<string>)
    ensures Run(g, s, a + b) == Run(g, Run(g, s, a), b)
    decreases |b|
  {
    if |b| == 0 {
      assert a + b == a;
    } else {
      var b0 := b[..|b| - 1];
      assert (a + b)[..|a + b| - 1] == a + b0;
      assert (a + b)[|a + b| - 1] == b[|b| - 1];
      RunAppend(g, s, a, b0);
    }
  }

  /** Extending a record with `a` then `b` is extending it with `a + b`. */
  lemma {:induction false} UpdateAllAppend<T, R>(g: Grammar<T, R>, t: T, a: seq<string>, b: seq<string>)
    ensures UpdateAll(g, t, a + b) == UpdateAll(g, UpdateAll(g, t, a), b)
    decreases |b|
  {
    if |b| == 0 {
      assert a + b == a;
    } else {
      var b0 := b[..|b| - 1];
      assert (a + b)[..|a + b| - 1] == a + b0;
      assert (a + b)[|a + b| - 1] == b[|b| - 1];
      UpdateAllAppend(g, t, a, b0);
    }
  }

  /** Extending a record with one more line. */
  lemma UpdateAllSnoc<T, R>(g: Grammar<T, R>, t: T, a: seq<string>, x: string)
    ensures UpdateAll(g, t, a + [x]) == g.update(UpdateAll(g, t, a), x)
  {
    assert (a + [x])[..|a|] == a;
  }

  lemma UpdateAllThree<T, R>(g: Grammar<T, R>, t: T, x: string, y: string, z: string)
    ensures UpdateAll(g, t, [x, y, z]) == g.update(g.update(g.update(t, x), y), z)
  {
    UpdateAllSnoc(g, t, [], x);
    UpdateAllSnoc(g, t, [x], y);
    UpdateAllSnoc(g, t, [x, y], z);
    assert [] + [x] == [x] && [x] + [y] == [x, y] && [x, y] + [z] == [x, y, z];
  }

  lemma UpdateAllOne<T, R>(g: Grammar<T, R>, t: T, x: string)
    ensures UpdateAll(g, t, [x]) == g.update(t, x)
  {
    assert [x][..0] == [];
  }

  /** Non-marker lines leave the closed records alone and only extend the open one. */
  lemma {:induction false} RunBody<T, R>(g: Grammar<T, R>, done: seq<R>, t: T, body: seq<string>)
    requires NoMarker(g, body)
    ensures Run(g, State(done, Some(t)), body) == State(done, Some(UpdateAll(g, t, body)))
    decreases |body|
  {
    if |body| > 0 {
      RunBody(g, done, t, body[..|body| - 1]);
      assert !g.opens(body[|body| - 1]);
    }
  }

  /** Lines before the first marker are ignored. */
  lemma {:induction false} RunNoMarker<T, R>(g: Grammar<T, R>, lines: seq<string>)
    requires NoMarker(g, lines)
    ensures Run(g, State([], None), lines) == State([], None)
    decreases |lines|
  {
    if |lines| > 0 {
      RunNoMarker(g, lines[..|lines| - 1]);
      assert !g.opens(lines[|lines| - 1]);
    }
  }

  /** Without a marker line the reader returns no record. */
  lemma ParseNoMarker<T, R>(g: Grammar<T, R>, lines: seq<string>)
    requires NoMarker(g, lines)
    ensures Parse(g, lines) == []
  {
    RunNoMarker(g, lines);
  }

  /**
   * A marker line and the lines up to the next marker form exactly one
   * record, appended after those of the earlier input: nothing in the block
   * is lost or attached to another record.
   */
  lemma ParseBlock<T, R>(g: Grammar<T, R>, before: seq<string>, head: string, body: seq<string>)
    requires g.opens(head) && NoMarker(g, body)
    ensures Parse(g, before + [head] + body) == Parse(g, before) + [Block(g, head, body)]
  {
    var s := Run(g, State([], None), before);
    RunAppend(g, State([], None), before + [head], body);
    assert (before + [head])[..|before|] == before;
    RunBody(g, Finish(g, s), g.start(head), body);
  }

  /** One record per marker line. */
  lemma {:induction false} ParseCount<T, R>(g: Grammar<T, R>, lines: seq<string>)
    ensures |Parse(g, lines)| == CountMarkers(g, lines)
    decreases |lines|
  {
    if |lines| > 0 {
      ParseCount(g, lines[..|lines| - 1]);
    }
  }
}
