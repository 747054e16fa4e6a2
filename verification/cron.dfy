/** The schedule helpers of the jobs service: the cron-expression check and the
    next-run calculation. Neither interprets the expression's fields: the check
    counts the pieces `split(' ')` produces, and the next run is a fixed delay
    after the current time. */
module Cron {
  import opened JobEntity

  const Separator: char := ' '

  /** The number of pieces an accepted expression splits into. */
  const FieldCount: nat := 5

  /** The fixed delay between "now" and the next run, in milliseconds. */
  const NextRunDelayMs: int := 60000

  function SeparatorCount(s: string): nat {
    if s == [] then 0
    else (if s[0] == Separator then 1 else 0) + SeparatorCount(s[1..])
  }

  /** The pieces joined back with one separator between neighbours. */
  function Join(parts: seq<string>): string
    requires |parts| > 0
  {
    if |parts| == 1 then parts[0] else parts[0] + [Separator] + Join(parts[1..])
  }

  /** JavaScript's `s.split(' ')`: the text between consecutive separators,
      empty pieces included, so "" gives [""] and " " gives ["", ""]. */
  function Split(s: string): (parts: seq<string>)
    ensures |parts| == SeparatorCount(s) + 1
    ensures forall i :: 0 <= i < |parts| ==> Separator !in parts[i]
    ensures Join(parts) == s
  {
    if s == [] then [""]
    else
      var rest := Split(s[1..]);
      if s[0] == Separator then
        assert ([""] + rest)[1..] == rest;
        [""] + rest
      else
        var parts := [[s[0]] + rest[0]] + rest[1..];
        assert parts[1..] == rest[1..];
        assert |rest| > 1 ==> Join(rest) == rest[0] + [Separator] + Join(rest[1..]);
        assert s == [s[0]] + s[1..];
        parts
  }

  /** Text without separators followed by one separator splits off as one piece. */
  lemma {:induction false} SplitAfterPiece(p: string, t: string)
    requires Separator !in p
    ensures Split(p + [Separator] + t) == [p] + Split(t)
  {
    if p == [] {
      assert p + [Separator] + t == [Separator] + t;
      assert ([Separator] + t)[1..] == t;
    } else {
      var s := p + [Separator] + t;
      assert s[0] == p[0] && s[1..] == p[1..] + [Separator] + t;
      SplitAfterPiece(p[1..], t);
      assert p == [p[0]] + p[1..];
    }
  }

  /** Text without separators is a single piece. */
  lemma SplitWithoutSeparator(p: string)
    requires Separator !in p
    ensures Split(p) == [p]
  {
  }

  /** Splitting undoes joining whenever no piece contains the separator. */
  lemma {:induction false} SplitJoin(parts: seq<string>)
    requires |parts| > 0
    requires forall i :: 0 <= i < |parts| ==> Separator !in parts[i]
    ensures Split(Join(parts)) == parts
  {
    if |parts| == 1 {
      SplitWithoutSeparator(parts[0]);
    } else {
      SplitJoin(parts[1..]);
      SplitAfterPiece(parts[0], Join(parts[1..]));
      assert parts == [parts[0]] + parts[1..];
    }
  }

  /** The service's expression check: exactly five pieces after splitting on a
      single space, whatever the pieces contain. */
  function IsValidCronExpression(expression: string): (valid: bool)
    ensures valid <==> SeparatorCount(expression) == FieldCount - 1
  {
    |Split(expression)| == FieldCount
  }

  /** Any five separator-free pieces joined by single spaces pass the check:
      the field contents (even empty ones) are never inspected. */
  lemma FieldContentsUnchecked(fields: seq<string>)
    requires |fields| == FieldCount
    requires forall i :: 0 <= i < |fields| ==> Separator !in fields[i]
    ensures IsValidCronExpression(Join(fields))
  {
    SplitJoin(fields);
  }

  /** The check on sample expressions: a three-field expression is rejected
      and a daily one accepted, but so is a four-field expression with a
      doubled space, while a six-field (seconds) expression is rejected. */
  lemma CheckExamples()
    ensures !IsValidCronExpression("* * *")
    ensures IsValidCronExpression("0 2 * * *")
    ensures IsValidCronExpression("0  2 * *")
    ensures !IsValidCronExpression("0 0 2 * * *")
  {
  }

  /** The next run time. The expression is not consulted: the result is
      always the fixed delay after `from`. */
  function NextExecutionTime(expression: string, from: Timestamp): (next: Timestamp)
    ensures next > from
  {
    from + NextRunDelayMs
  }

  /** Two expressions computed at the same instant give the same next run. */
  lemma NextRunIgnoresExpression(e1: string, e2: string, from: Timestamp)
    ensures NextExecutionTime(e1, from) == NextExecutionTime(e2, from)
  {
  }

  /** Later computations for a fixed expression give strictly later runs. */
  lemma NextRunIncreasing(expression: string, t1: Timestamp, t2: Timestamp)
    requires t1 < t2
    ensures NextExecutionTime(expression, t1) < NextExecutionTime(expression, t2)
  {
  }
}
