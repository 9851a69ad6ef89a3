/**
 * The condition string that checkStatus builds from PortAudio's callback
 * status flags, and a decoder that reads the flags back out of it.
 */
module Status {
  /** PortAudio's paInputUnderflow, paInputOverflow, paOutputUnderflow, paOutputOverflow, paPrimingOutput. */
  const InputUnderflow: bv32 := 0x1
  const InputOverflow: bv32 := 0x2
  const OutputUnderflow: bv32 := 0x4
  const OutputOverflow: bv32 := 0x8
  const PrimingOutput: bv32 := 0x10

  const Prefix: string := "portAudio status - "
  const NoStatus: string := "nada"

  const InputUnderflowText: string := "input underflow "
  const InputOverflowText: string := "input overflow "
  const OutputUnderflowText: string := "output underflow "
  const OutputOverflowText: string := "output overflow "
  const PrimingOutputText: string := "priming output "

  /** Each flag with the words reported for it, in the order they are reported. */
  const StatusTable: seq<(bv32, string)> := [
    (InputUnderflow, InputUnderflowText),
    (InputOverflow, InputOverflowText),
    (OutputUnderflow, OutputUnderflowText),
    (OutputOverflow, OutputOverflowText),
    (PrimingOutput, PrimingOutputText)
  ]

  /** The words of every entry whose flag is set, in table order. */
  function Describe(flags: bv32, table: seq<(bv32, string)>): string
  {
    if table == [] then ""
    else Word(flags, table[0]) + Describe(flags, table[1..])
  }

  /** For each entry of the table, whether its flag is set. */
  function FlagsSet(flags: bv32, table: seq<(bv32, string)>): (r: seq<bool>)
    ensures |r| == |table|
  {
    if table == [] then [] else [flags & table[0].0 != 0] + FlagsSet(flags, table[1..])
  }

  /** Reads back, entry by entry in table order, whether a description names that entry. */
  function Recognize(s: string, table: seq<(bv32, string)>): seq<bool>
  {
    if table == [] then []
    else if table[0].1 <= s then [true] + Recognize(s[|table[0].1|..], table[1..])
    else [false] + Recognize(s, table[1..])
  }

  /** No entry's words are empty or a prefix of another's. */
  ghost predicate Unambiguous(table: seq<(bv32, string)>)
  {
    && (forall i :: 0 <= i < |table| ==> table[i].1 != "")
    && (forall i, j :: 0 <= i < j < |table| ==> !(table[i].1 <= table[j].1) && !(table[j].1 <= table[i].1))
  }

  /** Neither of two words is a prefix of the other, so one cannot start a text that begins with the other. */
  lemma {:induction false} NotPrefixOfLonger(a: string, b: string, rest: string)
    requires !(a <= b) && !(b <= a)
    ensures !(a <= b + rest)
  {
  }

  /** A description made from later entries never starts with the words of an earlier one. */
  lemma {:induction false} DescribeAvoids(flags: bv32, w: string, table: seq<(bv32, string)>)
    requires Unambiguous(table)
    requires w != "" && forall j :: 0 <= j < |table| ==> !(w <= table[j].1) && !(table[j].1 <= w)
    ensures !(w <= Describe(flags, table))
  {
    if table != [] {
      var tail := Describe(flags, table[1..]);
      if flags & table[0].0 != 0 {
        NotPrefixOfLonger(w, table[0].1, tail);
      } else {
        DescribeAvoids(flags, w, table[1..]);
      }
    }
  }

  /** Round trip: the description names exactly the entries whose flag is set. */
  lemma {:induction false} RecognizeDescribe(flags: bv32, table: seq<(bv32, string)>)
    requires Unambiguous(table)
    ensures Recognize(Describe(flags, table), table) == FlagsSet(flags, table)
  {
    if table != [] {
      var w := table[0].1;
      var tail := Describe(flags, table[1..]);
      UnambiguousTail(table);
      RecognizeDescribe(flags, table[1..]);
      if flags & table[0].0 != 0 {
        assert Describe(flags, table) == w + tail;
        assert w <= w + tail;
        assert (w + tail)[|w|..] == tail;
        assert Recognize(w + tail, table) == [true] + Recognize(tail, table[1..]);
      } else {
        assert Describe(flags, table) == tail;
        FirstAvoidsRest(table);
        DescribeAvoids(flags, w, table[1..]);
        assert Recognize(tail, table) == [false] + Recognize(tail, table[1..]);
      }
    }
  }

  /** Dropping the first entry keeps a table unambiguous. */
  lemma UnambiguousTail(table: seq<(bv32, string)>)
    requires Unambiguous(table) && table != []
    ensures Unambiguous(table[1..])
  {
    var t := table[1..];
    forall i, j | 0 <= i < j < |t|
      ensures !(t[i].1 <= t[j].1) && !(t[j].1 <= t[i].1)
    {
      assert t[i] == table[i + 1] && t[j] == table[j + 1];
    }
  }

  /** The first entry's words are non-empty and neither start nor are started by any later entry's. */
  lemma FirstAvoidsRest(table: seq<(bv32, string)>)
    requires Unambiguous(table) && table != []
    ensures table[0].1 != ""
    ensures forall j :: 0 <= j < |table[1..]| ==> !(table[0].1 <= table[1..][j].1) && !(table[1..][j].1 <= table[0].1)
  {
    forall j | 0 <= j < |table[1..]|
      ensures !(table[0].1 <= table[1..][j].1) && !(table[1..][j].1 <= table[0].1)
    {
      assert table[1..][j] == table[j + 1];
    }
  }

  /** The description is empty exactly when none of the table's flags is set. */
  lemma {:induction false} DescribeEmpty(flags: bv32, table: seq<(bv32, string)>)
    requires Unambiguous(table)
    ensures Describe(flags, table) == "" <==> true !in FlagsSet(flags, table)
  {
    if table != [] {
      UnambiguousTail(table);
      DescribeEmpty(flags, table[1..]);
    }
  }

  lemma StatusTableUnambiguous()
    ensures Unambiguous(StatusTable)
  {
    var t := StatusTable;
    assert t[0].1[6] != t[1].1[6] && t[0].1[0] != t[2].1[0] && t[0].1[0] != t[3].1[0] && t[0].1[0] != t[4].1[0];
    assert t[1].1[0] != t[2].1[0] && t[1].1[0] != t[3].1[0] && t[1].1[0] != t[4].1[0];
    assert t[2].1[7] != t[3].1[7] && t[2].1[0] != t[4].1[0];
    assert t[3].1[0] != t[4].1[0];
  }

  /** The words an entry contributes: its words when its flag is set, nothing otherwise. */
  function Word(flags: bv32, entry: (bv32, string)): string
  {
    if flags & entry.0 != 0 then entry.1 else ""
  }

  /** Over a table of five entries, the description is the five tests in order. */
  lemma DescribeFive(flags: bv32, table: seq<(bv32, string)>)
    requires |table| == 5
    ensures Describe(flags, table) ==
      Word(flags, table[0]) + (Word(flags, table[1]) + (Word(flags, table[2]) + (Word(flags, table[3]) + Word(flags, table[4]))))
  {
    forall i | 0 <= i < 5
      ensures Describe(flags, table[i..]) == Word(flags, table[i]) + Describe(flags, table[i + 1..])
    {
      assert table[i..][1..] == table[i + 1..];
    }
    assert Describe(flags, table[5..]) == "";
    assert table[0..] == table;
  }

  /**
   * What checkStatus reports: "nada" for no flags, otherwise the prefix and
   * the words of the set flags; the five named flags can be read back from it.
   */
  function StatusText(flags: bv32): (s: string)
    ensures flags == 0 <==> s == NoStatus
    ensures flags != 0 ==> Prefix <= s && Recognize(s[|Prefix|..], StatusTable) == FlagsSet(flags, StatusTable)
  {
    StatusTableUnambiguous();
    RecognizeDescribe(flags, StatusTable);
    var s := if flags == 0 then NoStatus else Prefix + Describe(flags, StatusTable);
    assert flags != 0 ==> s[|Prefix|..] == Describe(flags, StatusTable);
    s
  }
}
