/** The retry-until-valid prompts of the workflows. The operator's entries, in the order
    typed, are a sequence; a prompt keeps the first entry it accepts and re-prompts after
    each one it rejects. When the sequence holds no acceptable entry the workflow never
    gets past the prompt, so it makes no change. */
module Prompts {
  import opened Seqs
  import opened Dates

  /** One retry loop: rejects entries until `accept` holds of one, and returns its index
      (or `|entries|` when the entries run out first). */
  method AcceptFirst<T>(entries: seq<T>, accept: T -> bool) returns (k: nat)
    ensures k <= |entries|
    ensures forall i :: 0 <= i < k ==> !accept(entries[i])
    ensures k < |entries| ==> accept(entries[k])
    ensures k == FirstIndex(entries, accept)
  {
    k := 0;
    while k < |entries| && !accept(entries[k])
      invariant k <= |entries|
      invariant forall i :: 0 <= i < k ==> !accept(entries[i])
    {
      k := k + 1;
    }
  }

  /** The date a date prompt settles on: the first line the validator accepts, as the store
      reads it; None when no line is accepted. */
  function DateEntry(lines: seq<string>): Option<Date> {
    var k := FirstIndex(lines, IsValidDate);
    if k < |lines| then ParseDate(lines[k]) else None
  }

  /** The prompt settles on a date exactly when some line is valid, and then on the
      reading of the first valid line. */
  lemma DateEntryIsFirstValid(lines: seq<string>)
    ensures DateEntry(lines).None? <==> forall i :: 0 <= i < |lines| ==> !IsValidDate(lines[i])
    ensures DateEntry(lines).Some? ==>
              exists k :: 0 <= k < |lines| && ParseDate(lines[k]) == DateEntry(lines)
                          && forall i :: 0 <= i < k ==> !IsValidDate(lines[i])
  {
    var k := FirstIndex(lines, IsValidDate);
    if k < |lines| {
      assert IsValidDate(lines[k]);
    }
  }

  /** The lines a date prompt leaves for the next prompt. */
  function AfterDateEntry(lines: seq<string>): (rest: seq<string>)
    ensures |rest| < |lines| || rest == []
  {
    var k := FirstIndex(lines, IsValidDate);
    if k < |lines| then lines[k + 1..] else []
  }

  /** A date prompt (`while (!matcher.find())` over `in.readLine()`). */
  method ReadDate(lines: seq<string>) returns (d: Option<Date>, rest: seq<string>)
    ensures d == DateEntry(lines)
    ensures rest == AfterDateEntry(lines)
  {
    var k := AcceptFirst(lines, IsValidDate);
    if k == |lines| {
      d, rest := None, [];
    } else {
      d, rest := ParseDate(lines[k]), lines[k + 1..];
    }
  }
}
