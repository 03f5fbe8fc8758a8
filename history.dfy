/**
 * The prediction history (ITN.py:86-89): every successful run writes the
 * labelled frame to `history/predictions_<timestamp>.csv`, with the clock
 * formatted by `strftime("%Y-%m-%d_%H-%M-%S")`. The folder is modelled as a
 * map from file name to the table written there.
 */
module History {
  import opened Order
  import opened Frames

  /** A reading of `datetime.now()`, to the second. */
  datatype DateTime = DateTime(year: nat, month: nat, day: nat, hour: nat, minute: nat, second: nat)

  /** The field ranges of Python's `datetime`, with a four-digit year. */
  predicate ValidDateTime(t: DateTime)
  {
    && 1000 <= t.year <= 9999 && 1 <= t.month <= 12 && 1 <= t.day <= 31
    && t.hour < 24 && t.minute < 60 && t.second < 60
  }

  /** `a` happened strictly before `b`. */
  predicate Earlier(a: DateTime, b: DateTime)
  {
    || a.year < b.year
    || (a.year == b.year && a.month < b.month)
    || (a.year == b.year && a.month == b.month && a.day < b.day)
    || (a.year == b.year && a.month == b.month && a.day == b.day && a.hour < b.hour)
    || (a.year == b.year && a.month == b.month && a.day == b.day && a.hour == b.hour
        && a.minute < b.minute)
    || (a.year == b.year && a.month == b.month && a.day == b.day && a.hour == b.hour
        && a.minute == b.minute && a.second < b.second)
  }

  function Pow10(w: nat): nat
  {
    if w == 0 then 1 else 10 * Pow10(w - 1)
  }

  function Digit(d: nat): char
    requires d < 10
  {
    ('0' as int + d) as char
  }

  /** `n` written with exactly `w` decimal digits, zero-padded, as strftime writes its fields. */
  function Pad(n: nat, w: nat): (r: string)
    requires n < Pow10(w)
    ensures |r| == w
    decreases w
  {
    if w == 0 then "" else Pad(n / 10, w - 1) + [Digit(n % 10)]
  }

  /** `strftime("%Y-%m-%d")`. */
  function DatePart(t: DateTime): string
    requires ValidDateTime(t)
  {
    Pad(t.year, 4) + ("-" + (Pad(t.month, 2) + ("-" + Pad(t.day, 2))))
  }

  /** `strftime("%H-%M-%S")`. */
  function TimePart(t: DateTime): string
    requires ValidDateTime(t)
  {
    Pad(t.hour, 2) + ("-" + (Pad(t.minute, 2) + ("-" + Pad(t.second, 2))))
  }

  /** `strftime("%Y-%m-%d_%H-%M-%S")` (ITN.py:88). */
  function Timestamp(t: DateTime): string
    requires ValidDateTime(t)
  {
    DatePart(t) + ("_" + TimePart(t))
  }

  const FILE_PREFIX := "predictions_"
  const FILE_SUFFIX := ".csv"

  /** `f"predictions_{timestamp}.csv"` (ITN.py:89). */
  function FileName(t: DateTime): string
    requires ValidDateTime(t)
  {
    FILE_PREFIX + (Timestamp(t) + FILE_SUFFIX)
  }

  // ---------------------------------------------------------------------
  // Text facts about the formatted clock

  /** The file name is the prefix word, an underscore, the date, an underscore and the rest. */
  lemma FileNameShape(t: DateTime)
    requires ValidDateTime(t)
    ensures FileName(t) == "predictions" + ['_'] + (DatePart(t) + ['_'] + (TimePart(t) + FILE_SUFFIX))
  {
    var d, tp := DatePart(t), TimePart(t);
    assert FILE_PREFIX == "predictions" + ['_'];
    assert "_" == ['_'];
    assert Timestamp(t) == d + ("_" + tp);
    assert (d + ("_" + tp)) + FILE_SUFFIX == d + ['_'] + (tp + FILE_SUFFIX);
  }

  lemma {:induction false} PadDigits(n: nat, w: nat)
    requires n < Pow10(w)
    ensures forall i :: 0 <= i < w ==> '0' <= Pad(n, w)[i] <= '9'
    decreases w
  {
    if w > 0 {
      PadDigits(n / 10, w - 1);
    }
  }

  /** The date part is digits and dashes only: it holds neither '_' nor '.'. */
  lemma DatePartCharacters(t: DateTime)
    requires ValidDateTime(t)
    ensures forall i :: 0 <= i < |DatePart(t)| ==> DatePart(t)[i] != '_' && DatePart(t)[i] != '.'
  {
    PadDigits(t.year, 4);
    PadDigits(t.month, 2);
    PadDigits(t.day, 2);
    var d := DatePart(t);
    assert d == Pad(t.year, 4) + "-" + Pad(t.month, 2) + "-" + Pad(t.day, 2);
    forall i | 0 <= i < |d| ensures d[i] != '_' && d[i] != '.' {
      if i < 4 { assert d[i] == Pad(t.year, 4)[i]; }
      else if i == 4 || i == 7 { }
      else if i < 7 { assert d[i] == Pad(t.month, 2)[i - 5]; }
      else { assert d[i] == Pad(t.day, 2)[i - 8]; }
    }
  }

  // ---------------------------------------------------------------------
  // Sorting file names sorts runs by time

  lemma {:induction false} PadOrder(n: nat, m: nat, w: nat)
    requires n < Pow10(w) && m < Pow10(w)
    ensures LexLess(Pad(n, w), Pad(m, w)) <==> n < m
    ensures Pad(n, w) == Pad(m, w) <==> n == m
    decreases w
  {
    if w == 0 {
      LexLessIrreflexive("");
    } else {
      PadOrder(n / 10, m / 10, w - 1);
      var dn, dm := [Digit(n % 10)], [Digit(m % 10)];
      LexLessConcat(Pad(n / 10, w - 1), dn, Pad(m / 10, w - 1), dm);
      assert LexLess(dn, dm) <==> n % 10 < m % 10 by {
        assert dn[1..] == [] && dm[1..] == [];
        LexLessIrreflexive("");
      }
      assert Pad(n, w) == Pad(m, w) <==> Pad(n / 10, w - 1) == Pad(m / 10, w - 1) && dn == dm by {
        var pn, pm := Pad(n / 10, w - 1), Pad(m / 10, w - 1);
        if Pad(n, w) == Pad(m, w) {
          assert pn == Pad(n, w)[..w - 1] && pm == Pad(m, w)[..w - 1];
          assert dn == Pad(n, w)[w - 1..] && dm == Pad(m, w)[w - 1..];
        }
      }
    }
  }

  /** Two texts that start with the same string compare as what follows it. */
  lemma CommonPrefix(p: string, x: string, y: string)
    ensures LexLess(p + x, p + y) <==> LexLess(x, y)
    ensures p + x == p + y <==> x == y
  {
    LexLessConcat(p, x, p, y);
    LexLessIrreflexive(p);
    if p + x == p + y {
      assert x == (p + x)[|p|..] && y == (p + y)[|p|..];
    }
  }

  /** Two texts that start with equally long fields compare field first. */
  lemma FieldThenRest(f: string, x: string, g: string, y: string)
    requires |f| == |g|
    ensures LexLess(f + x, g + y) <==> LexLess(f, g) || (f == g && LexLess(x, y))
    ensures f + x == g + y <==> f == g && x == y
  {
    LexLessConcat(f, x, g, y);
    if f + x == g + y {
      assert f == (f + x)[..|f|] && g == (g + y)[..|g|];
      assert x == (f + x)[|f|..] && y == (g + y)[|g|..];
    }
  }

  lemma TimePartOrder(a: DateTime, b: DateTime)
    requires ValidDateTime(a) && ValidDateTime(b)
    ensures LexLess(TimePart(a), TimePart(b)) <==>
      a.hour < b.hour || (a.hour == b.hour && (a.minute < b.minute || (a.minute == b.minute && a.second < b.second)))
    ensures TimePart(a) == TimePart(b) <==> a.hour == b.hour && a.minute == b.minute && a.second == b.second
  {
    PadOrder(a.hour, b.hour, 2);
    PadOrder(a.minute, b.minute, 2);
    PadOrder(a.second, b.second, 2);
    CommonPrefix("-", Pad(a.second, 2), Pad(b.second, 2));
    FieldThenRest(Pad(a.minute, 2), "-" + Pad(a.second, 2), Pad(b.minute, 2), "-" + Pad(b.second, 2));
    CommonPrefix("-", Pad(a.minute, 2) + ("-" + Pad(a.second, 2)), Pad(b.minute, 2) + ("-" + Pad(b.second, 2)));
    FieldThenRest(Pad(a.hour, 2), "-" + (Pad(a.minute, 2) + ("-" + Pad(a.second, 2))),
                  Pad(b.hour, 2), "-" + (Pad(b.minute, 2) + ("-" + Pad(b.second, 2))));
  }

  lemma DatePartOrder(a: DateTime, b: DateTime)
    requires ValidDateTime(a) && ValidDateTime(b)
    ensures LexLess(DatePart(a), DatePart(b)) <==>
      a.year < b.year || (a.year == b.year && (a.month < b.month || (a.month == b.month && a.day < b.day)))
    ensures DatePart(a) == DatePart(b) <==> a.year == b.year && a.month == b.month && a.day == b.day
  {
    PadOrder(a.year, b.year, 4);
    PadOrder(a.month, b.month, 2);
    PadOrder(a.day, b.day, 2);
    CommonPrefix("-", Pad(a.day, 2), Pad(b.day, 2));
    FieldThenRest(Pad(a.month, 2), "-" + Pad(a.day, 2), Pad(b.month, 2), "-" + Pad(b.day, 2));
    CommonPrefix("-", Pad(a.month, 2) + ("-" + Pad(a.day, 2)), Pad(b.month, 2) + ("-" + Pad(b.day, 2)));
    FieldThenRest(Pad(a.year, 4), "-" + (Pad(a.month, 2) + ("-" + Pad(a.day, 2))),
                  Pad(b.year, 4), "-" + (Pad(b.month, 2) + ("-" + Pad(b.day, 2))));
  }

  /**
   * Because every field has a fixed width, sorting history file names as
   * strings (ITN.py:112) orders the runs by the time they were written, and
   * two runs get the same file name only when they fall in the same second.
   */
  lemma FileNamesSortChronologically(a: DateTime, b: DateTime)
    requires ValidDateTime(a) && ValidDateTime(b)
    ensures LexLess(FileName(a), FileName(b)) <==> Earlier(a, b)
    ensures FileName(a) == FileName(b) <==> a == b
  {
    DatePartOrder(a, b);
    TimePartOrder(a, b);
    CommonPrefix("_", TimePart(a), TimePart(b));
    assert |DatePart(a)| == |DatePart(b)| == 10;
    FieldThenRest(DatePart(a), "_" + TimePart(a), DatePart(b), "_" + TimePart(b));
    assert |Timestamp(a)| == |Timestamp(b)|;
    FieldThenRest(Timestamp(a), FILE_SUFFIX, Timestamp(b), FILE_SUFFIX);
    LexLessIrreflexive(FILE_SUFFIX);
    CommonPrefix(FILE_PREFIX, Timestamp(a) + FILE_SUFFIX, Timestamp(b) + FILE_SUFFIX);
  }

  // ---------------------------------------------------------------------
  // The history folder

  class Store {
    /** Whether the `history` folder exists (`os.path.exists("history")`). */
    var present: bool
    /** The CSV files in the folder: name to the table written by `to_csv`. */
    var files: map<string, seq<Column>>

    constructor ()
      ensures !present && files == map[]
    {
      present := false;
      files := map[];
    }

    /**
     * `os.makedirs` when needed, then `data.to_csv(f"history/predictions_{timestamp}.csv")`.
     * A run in the same second as an earlier one overwrites its file, as the
     * script does; every other file is left untouched.
     */
    method Save(now: DateTime, table: seq<Column>)
      requires ValidDateTime(now)
      modifies this
      ensures present
      ensures files == old(files)[FileName(now) := table]
      ensures forall f :: f in old(files) && f != FileName(now) ==> f in files && files[f] == old(files)[f]
    {
      present := true;
      files := files[FileName(now) := table];
    }
  }
}
