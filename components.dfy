/** A row of message buttons, and the two ways the bot disables them in place:
    every button of the row, or the button at one index. */
module Components {

  /** A button as the bot reads it back from a message: its custom id and whether it is disabled. */
  datatype Button = Button(customId: string, disabled: bool)

  /** The row with every button disabled and nothing else changed. */
  function AllDisabled(row: seq<Button>): (r: seq<Button>)
  {
    if row == [] then [] else [row[0].(disabled := true)] + AllDisabled(row[1..])
  }

  /** Disabling keeps the number of buttons and their ids, and leaves every button disabled. */
  lemma {:induction false} AllDisabledShape(row: seq<Button>)
    ensures |AllDisabled(row)| == |row|
    ensures forall i :: 0 <= i < |row| ==>
      AllDisabled(row)[i].customId == row[i].customId && AllDisabled(row)[i].disabled
  {
    if row != [] {
      AllDisabledShape(row[1..]);
    }
  }

  /** Disabling twice is the same as disabling once. */
  lemma {:induction false} AllDisabledIdempotent(row: seq<Button>)
    ensures AllDisabled(AllDisabled(row)) == AllDisabled(row)
  {
    if row != [] {
      AllDisabledIdempotent(row[1..]);
    }
  }

  /** Sets `disabled` on each button of the row, in place, as the `for` loop over
      the components of the first action row does. */
  method DisableAll(row: array<Button>)
    modifies row
    ensures row[..] == AllDisabled(old(row[..]))
  {
    ghost var before := row[..];
    var i := 0;
    while i < row.Length
      invariant 0 <= i <= row.Length
      invariant forall k :: 0 <= k < i ==> row[k] == before[k].(disabled := true)
      invariant forall k :: i <= k < row.Length ==> row[k] == before[k]
    {
      row[i] := row[i].(disabled := true);
      i := i + 1;
    }
    AllDisabledAt(before, row[..]);
  }

  lemma {:induction false} AllDisabledAt(before: seq<Button>, after: seq<Button>)
    requires |after| == |before|
    requires forall k :: 0 <= k < |before| ==> after[k] == before[k].(disabled := true)
    ensures after == AllDisabled(before)
  {
    if before != [] {
      AllDisabledAt(before[1..], after[1..]);
    }
  }

  /** Disables the button at `index` when the row has one there (`components[index].setDisabled(true)`);
      an index past the end is the TypeError of calling a method on `undefined`, reported as `ok == false`. */
  method DisableAt(row: array<Button>, index: nat) returns (ok: bool)
    modifies row
    ensures ok == (index < row.Length)
    ensures ok ==> row[..] == old(row[..])[index := old(row[index]).(disabled := true)]
    ensures !ok ==> row[..] == old(row[..])
  {
    ok := index < row.Length;
    if ok {
      row[index] := row[index].(disabled := true);
    }
  }
}
