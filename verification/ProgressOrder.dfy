/** The order progress nodes are listed in, and which of two records is the later one. */
module ProgressOrder {
  import opened Options
  import Sorting

  /** Lexicographic order of texts. */
  predicate TextAtMost(a: string, b: string) {
    a == "" || (b != "" && (a[0] < b[0] || (a[0] == b[0] && TextAtMost(a[1..], b[1..]))))
  }

  lemma {:induction false} TextTotal(a: string, b: string)
    ensures TextAtMost(a, b) || TextAtMost(b, a)
    ensures TextAtMost(a, b) && TextAtMost(b, a) ==> a == b
  {
    if a != "" && b != "" && a[0] == b[0] {
      TextTotal(a[1..], b[1..]);
      assert a == [a[0]] + a[1..] && b == [b[0]] + b[1..];
    }
  }

  lemma {:induction false} TextTransitive(a: string, b: string, c: string)
    requires TextAtMost(a, b) && TextAtMost(b, c)
    ensures TextAtMost(a, c)
  {
    if a != "" && a[0] == b[0] == c[0] {
      TextTransitive(a[1..], b[1..], c[1..]);
    }
  }

  // ---------------------------------------------------------------- sequence numbers

  const MaxU64: nat := 0xFFFF_FFFF_FFFF_FFFF

  /** The value of a run of decimal digits. */
  function DigitsValue(s: string): Option<nat> {
    if s == "" then Some(0)
    else
      var last := s[|s| - 1];
      match DigitsValue(s[..|s| - 1])
      case Some(v) => if '0' <= last <= '9' then Some(10 * v + (last as int - '0' as int)) else None
      case None => None
  }

  /** An unsigned 64-bit number: digits, after a plus sign if there is one, that do not overflow. */
  function ParseU64(s: string): Option<nat> {
    var digits := if s != "" && s[0] == '+' then s[1..] else s;
    if digits == "" then None
    else match DigitsValue(digits) case Some(v) => if v <= MaxU64 then Some(v) else None case None => None
  }

  /** The decimal digits of a number. */
  function Decimal(n: nat): string {
    (if n < 10 then "" else Decimal(n / 10)) + [('0' as int + n % 10) as char]
  }

  lemma {:induction false} DecimalDigits(n: nat)
    ensures DigitsValue(Decimal(n)) == Some(n) && Decimal(n) != "" && Decimal(n)[0] != '+'
  {
    var last := ('0' as int + n % 10) as char;
    if n >= 10 {
      DecimalDigits(n / 10);
      assert Decimal(n)[..|Decimal(n)| - 1] == Decimal(n / 10) && Decimal(n)[0] == Decimal(n / 10)[0];
    } else {
      assert Decimal(n) == [last] && [last][..0] == "";
    }
  }

  /** A printed number is read back, with or without a plus sign, unless it does not fit 64 bits. */
  lemma PrintedParses(n: nat)
    ensures ParseU64(Decimal(n)) == ParseU64("+" + Decimal(n)) == if n < 0x1_0000_0000_0000_0000 then Some(n) else None
  {
    hide DigitsValue, Decimal;
    DecimalDigits(n);
    assert ("+" + Decimal(n))[1..] == Decimal(n);
  }

  /** The position of the first colon, or the length of the text. */
  function Colon(s: string): (i: nat)
    ensures i <= |s| && (i < |s| ==> s[i] == ':') && forall k :: 0 <= k < i ==> s[k] != ':'
  {
    if s == "" || s[0] == ':' then 0 else 1 + Colon(s[1..])
  }

  function Kind(id: string): string {
    id[..Colon(id)]
  }

  /** The number after the first colon; ids without one come last within their kind. */
  function Sequence(id: string): nat {
    var rest := if Colon(id) == |id| then "" else id[Colon(id) + 1..];
    match ParseU64(rest) case Some(v) => v case None => MaxU64
  }

  /** The order of two node ids: by kind, then sequence number, then the whole id. */
  predicate NodeBefore(a: string, b: string) {
    if Kind(a) != Kind(b) then TextAtMost(Kind(a), Kind(b))
    else if Sequence(a) != Sequence(b) then Sequence(a) < Sequence(b)
    else TextAtMost(a, b)
  }

  lemma {:induction false} ColonAfter(kind: string, rest: string)
    requires ':' !in kind
    ensures Colon(kind + ":" + rest) == |kind|
  {
    if kind != "" {
      assert (kind + ":" + rest)[1..] == kind[1..] + ":" + rest;
      ColonAfter(kind[1..], rest);
    }
  }

  /** An id of a kind and a number is taken apart again. */
  lemma KindAndNumber(kind: string, n: nat)
    requires ':' !in kind && n < 0x1_0000_0000_0000_0000
    ensures var id := kind + ":" + Decimal(n); Kind(id) == kind && Sequence(id) == n
  {
    var id := kind + ":" + Decimal(n);
    ColonAfter(kind, Decimal(n));
    PrintedParses(n);
    assert id[..|kind|] == kind && id[|kind| + 1..] == Decimal(n);
  }

  /** Nodes are listed by kind in the order of texts, within a kind by number, and one without a number last. */
  lemma NodesByKind(a: string, b: string)
    ensures Kind(a) != Kind(b) ==> (NodeBefore(a, b) <==> TextAtMost(Kind(a), Kind(b)))
    ensures Kind(a) == Kind(b) && Sequence(a) < Sequence(b) ==> NodeBefore(a, b) && !NodeBefore(b, a)
    ensures Kind(a) == Kind(b) && Sequence(a) == Sequence(b) ==> (NodeBefore(a, b) <==> TextAtMost(a, b))
    ensures ':' !in b ==> Kind(b) == b && Sequence(a) <= Sequence(b)
  {
    hide TextAtMost;
    if ':' !in b {
      assert Colon(b) == |b| && b[..|b|] == b;
    }
    SequenceBounded(a);
  }

  lemma SequenceBounded(id: string)
    ensures Sequence(id) <= MaxU64
  {
    hide DigitsValue;
  }

  lemma NodesCompare(a: string, b: string)
    ensures NodeBefore(a, b) || NodeBefore(b, a)
    ensures NodeBefore(a, b) && NodeBefore(b, a) ==> a == b
  {
    hide Kind, Sequence, TextAtMost;
    TextTotal(Kind(a), Kind(b));
    TextTotal(a, b);
  }

  lemma NodesTransitive(a: string, b: string, c: string)
    requires NodeBefore(a, b) && NodeBefore(b, c)
    ensures NodeBefore(a, c)
  {
    hide Kind, Sequence, TextAtMost;
    TextTotal(Kind(a), Kind(b));
    TextTotal(Kind(b), Kind(c));
    if TextAtMost(Kind(a), Kind(b)) && TextAtMost(Kind(b), Kind(c)) {
      TextTransitive(Kind(a), Kind(b), Kind(c));
    }
    if TextAtMost(a, b) && TextAtMost(b, c) {
      TextTransitive(a, b, c);
    }
  }

  /** The order of node ids is total, so sorting is well determined. */
  lemma NodesInOrder()
    ensures Sorting.IsOrder(NodeBefore)
  {
    forall a, b
      ensures NodeBefore(a, b) || NodeBefore(b, a)
    {
      NodesCompare(a, b);
    }
    forall a, b, c | NodeBefore(a, b) && NodeBefore(b, c)
      ensures NodeBefore(a, c)
    {
      NodesTransitive(a, b, c);
    }
  }

  // ---------------------------------------------------------------- later records

  /** The operational log's number in a record's id. */
  function LogSequence(id: string): Option<nat> {
    if |id| >= 4 && id[..4] == "log:" then ParseU64(id[4..]) else None
  }

  lemma LogIds(id: string)
    requires LogSequence(id).Some?
    ensures Kind(id) == "log" && Sequence(id) == LogSequence(id).value
  {
    assert id[0] == 'l' && id[1] == 'o' && id[2] == 'g' && id[3] == ':' by {
      assert id[..4][0] == id[0] && id[..4][1] == id[1] && id[..4][2] == id[2] && id[..4][3] == id[3];
    }
    assert Colon(id) == 3;
  }

  /** The record of log entry `n` is known by its number. */
  lemma LogNumber(n: nat)
    requires n < 0x1_0000_0000_0000_0000
    ensures LogSequence("log:" + Decimal(n)) == Some(n)
  {
    PrintedParses(n);
    assert ("log:" + Decimal(n))[4..] == Decimal(n) && ("log:" + Decimal(n))[..4] == "log:";
  }

  /** Log records are listed in the order of the log. */
  lemma LogIsChronological(order: seq<string>, i: nat, j: nat)
    requires Sorting.IsSorted(NodeBefore, order) && i < j < |order|
    requires LogSequence(order[i]).Some? && LogSequence(order[j]).Some?
    ensures LogSequence(order[i]).value <= LogSequence(order[j]).value
  {
    assert NodeBefore(order[i], order[j]);
    LogIds(order[i]);
    LogIds(order[j]);
  }

  /** What a record's recency is judged by: its log number, then its start time; missing ones come first. */
  datatype Stamp = Stamp(sequence: Option<nat>, time: Option<string>)

  predicate TimeAtMost(a: Option<string>, b: Option<string>) {
    a.None? || (b.Some? && TextAtMost(a.value, b.value))
  }

  /** Whether one record is no later than another. */
  predicate NoLater(a: Stamp, b: Stamp) {
    if a.sequence == b.sequence then TimeAtMost(a.time, b.time)
    else a.sequence.None? || (b.sequence.Some? && a.sequence.value < b.sequence.value)
  }

  /**
    A record with a log number is later than one without; of two with numbers the higher one is later;
    otherwise one with a start time is later than one without, and of two the greater text.
   */
  lemma LaterRecords(a: Stamp, b: Stamp)
    ensures a.sequence.None? && b.sequence.Some? ==> NoLater(a, b) && !NoLater(b, a)
    ensures a.sequence.Some? && b.sequence.Some? && a.sequence.value < b.sequence.value ==> NoLater(a, b) && !NoLater(b, a)
    ensures a.sequence == b.sequence && a.time.None? && b.time.Some? ==> NoLater(a, b) && !NoLater(b, a)
    ensures a.sequence == b.sequence && a.time.Some? && b.time.Some? && a.time != b.time ==>
              (NoLater(a, b) <==> TextAtMost(a.time.value, b.time.value)) && (NoLater(b, a) <==> !NoLater(a, b))
    ensures a == b ==> NoLater(a, b)
  {
    if a.time.Some? && b.time.Some? {
      TextTotal(a.time.value, b.time.value);
    }
  }

  /** Texts compare by the first character in which they differ; a text comes after its beginnings. */
  lemma {:induction false} TextByFirstDifference(a: string, b: string, n: nat)
    requires n <= |a| && n <= |b| && a[..n] == b[..n]
    ensures n == |a| ==> TextAtMost(a, b)
    ensures n < |a| && n < |b| && a[n] < b[n] ==> TextAtMost(a, b) && !TextAtMost(b, a)
  {
    if n > 0 {
      assert a[0] == a[..n][0] && b[0] == b[..n][0];
      assert a[1..][..n - 1] == a[..n][1..] && b[1..][..n - 1] == b[..n][1..];
      TextByFirstDifference(a[1..], b[1..], n - 1);
    }
  }

  lemma StampsCompare(a: Stamp, b: Stamp)
    ensures NoLater(a, b) || NoLater(b, a)
  {
    if a.time.Some? && b.time.Some? {
      TextTotal(a.time.value, b.time.value);
    }
  }

  lemma StampsTransitive(a: Stamp, b: Stamp, c: Stamp)
    requires NoLater(a, b) && NoLater(b, c)
    ensures NoLater(a, c)
  {
    if a.time.Some? && b.time.Some? && c.time.Some? && TextAtMost(a.time.value, b.time.value) && TextAtMost(b.time.value, c.time.value) {
      TextTransitive(a.time.value, b.time.value, c.time.value);
    }
  }
}
