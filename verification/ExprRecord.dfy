/** The record in which the compiler collects an expression's code, as it lies in memory. */
module ExprRecord {
  import opened LibcMemory
  import opened TextBuffer
  import opened Lexer

  const MAX_EXPR_CODE: nat := 200

  /** The fields behind the code: `isImmediate`, `value` and `location`. */
  const IMMEDIATE_AT: nat := MAX_EXPR_CODE
  const VALUE_AT: nat := IMMEDIATE_AT + 4
  const LOCATION_AT: nat := VALUE_AT + MAX_TOKEN_VALUE
  const RECORD_SIZE: nat := LOCATION_AT + 30

  /** The memory starts with this C string. */
  predicate TextAt(memory: string, text: string) {
    |text| < |memory| && memory[..|text|] == text && memory[|text|] == NUL && NulFree(text)
  }

  /** What is left of an expression's code once the field behind it has been cleared. */
  function Stored(text: string): string {
    if |text| <= MAX_EXPR_CODE then text else text[..MAX_EXPR_CODE]
  }

  /** `strlen`. */
  method StringLength(memory: array<char>, ghost text: string) returns (n: nat)
    requires TextAt(memory[..], text)
    ensures n == |text|
  {
    assert forall k :: 0 <= k < |text| ==> memory[..][..|text|][k] == memory[k];
    assert memory[..][|text|] == memory[|text|];
    n := 0;
    while memory[n] != NUL
      invariant n <= |text|
      decreases |text| - n
    {
      n := n + 1;
    }
  }

  /** The text that a record's code field holds. */
  method ReadCode(record: array<char>, ghost text: string) returns (code: string)
    requires TextAt(record[..], text)
    ensures code == text
  {
    var n := StringLength(record, text);
    code := record[..n];
    assert record[..][..n] == record[..n];
  }

  /** The record of an expression not yet read. */
  method ClearRecord(record: array<char>)
    requires record.Length >= RECORD_SIZE
    modifies record
    ensures TextAt(record[..], "")
  {
    CopyBytes(record, 0, seq(MAX_EXPR_CODE, i => NUL));
    CopyBytes(record, IMMEDIATE_AT, [NUL, NUL, NUL, NUL]);
    record[VALUE_AT] := NUL;
    record[LOCATION_AT] := NUL;
    assert record[..][0] == NUL;
  }

  /** `appendToCode`: it does not look where the field ends. */
  method AppendToCode(record: array<char>, ghost text: string, s: string)
    requires TextAt(record[..], text) && NulFree(s) && |text| + |s| < record.Length
    modifies record
    ensures TextAt(record[..], text + s)
  {
    var n := StringLength(record, text);
    assert record[..n] == record[..][..n] == text;
    StringCopy(record, n, s);
    assert record[..][..|text + s|] == text + s;
  }

  /**
    * The end of a chain: `isImmediate` becomes 0, which ends the code after 200 characters, and the location eax.
    * However long the code, what can be read of it is what `Stored` says.
    */
  method FinishRecord(record: array<char>, ghost text: string)
    requires TextAt(record[..], text) && record.Length >= RECORD_SIZE
    modifies record
    ensures TextAt(record[..], Stored(text))
  {
    ghost var before := record[..];
    CopyBytes(record, IMMEDIATE_AT, [NUL, NUL, NUL, NUL]);
    StringCopy(record, LOCATION_AT, "eax");
    CutText(before, text, record[..]);
  }

  lemma CutText(before: string, text: string, after: string)
    requires TextAt(before, text) && |before| >= RECORD_SIZE && |after| == |before|
    requires after[..IMMEDIATE_AT] == before[..IMMEDIATE_AT] && after[IMMEDIATE_AT] == NUL
    ensures TextAt(after, Stored(text))
  {
    var kept := Stored(text);
    assert after[..|kept|] == after[..IMMEDIATE_AT][..|kept|] == before[..|kept|];
    assert before[..|kept|] == before[..|text|][..|kept|];
    assert |text| < IMMEDIATE_AT ==> after[..IMMEDIATE_AT][|text|] == before[..IMMEDIATE_AT][|text|];
  }

  /** The code is kept exactly when it fits: at 200 characters its terminator is the cleared field. */
  lemma StoredIff(text: string)
    ensures Stored(text) == text <==> |text| <= MAX_EXPR_CODE
  {
    if |text| > MAX_EXPR_CODE { assert |Stored(text)| == MAX_EXPR_CODE; }
  }
}
