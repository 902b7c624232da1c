/** CellComm.cpp: the text decisions of the driver for the SARA G350 cellular modem.
    The AT commands and the serial reads around them are not modelled; what is left
    is the substring counter `countOccurences` and the tests each command applies to
    the modem's reply. */
module CellComm {
  import opened Arduino

  // ---------------------------------------------------------------------------
  // countOccurences

  /** `countOccurences`: search for `target` from `startingIndex`; when it is found,
      count it and search again from one past where it was found, so that overlapping
      occurrences all count. `indexOf` takes an `unsigned int` start: a negative
      `startingIndex` converts to a start past the end of any String, and finds
      nothing. */
  function CountOccurrences(stringToSearch: string, target: string, startingIndex: int): (n: nat)
    decreases |stringToSearch| - startingIndex
    ensures startingIndex >= 0 ==> n <= Max(0, |stringToSearch| - startingIndex)
  {
    var indexOfKey := if startingIndex < 0 then -1 else IndexOf(stringToSearch, target, startingIndex);
    if indexOfKey < 0 then 0
    else 1 + CountOccurrences(stringToSearch, target, indexOfKey + 1)
  }

  /** Reference definition: the positions at or after `i` where `t` occurs, counted one
      by one. */
  function OccurrencesFrom(s: string, t: string, i: nat): nat
    decreases |s| - i
  {
    if i >= |s| then 0
    else (if OccursAt(s, t, i) then 1 else 0) + OccurrencesFrom(s, t, i + 1)
  }

  /** Positions without an occurrence add nothing to the count. */
  lemma {:induction false} OccurrencesSkip(s: string, t: string, i: nat, q: nat)
    requires i <= q && forall p :: i <= p < q ==> !OccursAt(s, t, p)
    decreases q - i
    ensures OccurrencesFrom(s, t, i) == OccurrencesFrom(s, t, q)
  {
    if i < q {
      OccurrencesSkip(s, t, i + 1, q);
    }
  }

  /** `countOccurences` from a start at or after 0 counts exactly the positions from
      that start where the target occurs. */
  lemma {:induction false} CountIsOccurrences(s: string, t: string, start: nat)
    decreases |s| - start
    ensures CountOccurrences(s, t, start) == OccurrencesFrom(s, t, start)
  {
    IndexOfIsFirst(s, t, start);
    var q := IndexOf(s, t, start);
    if q < 0 {
      OccurrencesSkip(s, t, start, if start <= |s| then |s| else start);
    } else {
      OccurrencesSkip(s, t, start, q);
      CountIsOccurrences(s, t, q + 1);
    }
  }

  /** The reference count is zero exactly when the target occurs nowhere from `i`. */
  lemma {:induction false} OccurrencesZero(s: string, t: string, i: nat)
    decreases |s| - i
    ensures OccurrencesFrom(s, t, i) == 0 <==> forall p :: i <= p < |s| ==> !OccursAt(s, t, p)
  {
    if i < |s| {
      OccurrencesZero(s, t, i + 1);
    }
  }

  /** Starting later never finds more. */
  lemma {:induction false} OccurrencesShrink(s: string, t: string, i: nat, j: nat)
    requires i <= j
    decreases j - i
    ensures OccurrencesFrom(s, t, j) <= OccurrencesFrom(s, t, i)
  {
    if i < j {
      OccurrencesShrink(s, t, i + 1, j);
    }
  }

  /** `countOccurences` returns 0 exactly when the target does not occur at or after the
      start, and in particular for any negative start. */
  lemma {:induction false} CountZeroIffAbsent(s: string, t: string, start: int)
    ensures CountOccurrences(s, t, start) == 0
            <==> start < 0 || forall p :: start <= p < |s| ==> !OccursAt(s, t, p)
  {
    if start >= 0 {
      CountIsOccurrences(s, t, start);
      OccurrencesZero(s, t, start);
    }
  }

  /** `countOccurences` does not grow as the start moves forward. */
  lemma {:induction false} CountNonIncreasing(s: string, t: string, a: nat, b: nat)
    requires a <= b
    ensures CountOccurrences(s, t, b) <= CountOccurrences(s, t, a)
  {
    CountIsOccurrences(s, t, a);
    CountIsOccurrences(s, t, b);
    OccurrencesShrink(s, t, a, b);
  }

  /** Overlapping occurrences count: "aa" occurs twice in "aaa". */
  lemma {:induction false} CountOverlapping(s: string, t: string)
    requires s == "aaa" && t == "aa"
    ensures CountOccurrences(s, t, 0) == 2
  {
    CountIsOccurrences(s, t, 0);
    assert OccursAt(s, t, 0) && OccursAt(s, t, 1) && !OccursAt(s, t, 2);
    assert OccurrencesFrom(s, t, 2) == 0;
    assert OccurrencesFrom(s, t, 1) == 1;
  }

  // ---------------------------------------------------------------------------
  // getMessage, deleteAllMessages

  /** The reply of the modem to `AT+CMGR` for an index that holds no message. */
  const InvalidIndexError := "+CMS ERROR: invalid memory index"

  /** What `getMessage` returns for the reply it read, as written: the reply when it
      holds the error text, and "" when it does not. */
  function GetMessageReply(s: string): (r: string)
    ensures r == (if Contains(s, InvalidIndexError) then s else "")
  {
    IndexOfFindsIffContains(s, InvalidIndexError);
    if IndexOf(s, InvalidIndexError, 0) < 0 then "" else s
  }

  /** As written, a reply that carries a message and no error is dropped. */
  lemma {:induction false} GetMessageDropsMessage(s: string)
    requires s == "+CMGR: \"REC READ\"\r\nhello\r\nOK"
    ensures GetMessageReply(s) == "" && s != ""
  {
    assert |s| < |InvalidIndexError|;
  }

  /** What `getMessage` is documented to do: "" when the modem reports an invalid
      index, and the reply otherwise. */
  function GetMessageReplyIntended(s: string): (r: string)
    ensures r == (if Contains(s, InvalidIndexError) then "" else s)
  {
    IndexOfFindsIffContains(s, InvalidIndexError);
    if IndexOf(s, InvalidIndexError, 0) < 0 then s else ""
  }

  /** What `deleteAllMessages` returns for the reply it read: whether it holds "OK". */
  function DeleteAllMessagesReply(s: string): (ok: bool)
    ensures ok <==> Contains(s, "OK")
  {
    IndexOfFindsIffContains(s, "OK");
    IndexOf(s, "OK", 0) > -1
  }
}
