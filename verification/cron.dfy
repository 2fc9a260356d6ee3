/** A concrete cron syntax check: the five-field entry format of the POSIX
    `crontab` utility (minute, hour, day of month, month, day of week), each
    field a comma-separated list of `*`, a number or an inclusive range
    `a-b`, with the widely supported `/step` suffix. Fields are separated by
    single spaces. The admission rules take cron validity as a parameter;
    this is one definition that meets what they need of it. */
module Cron {
  import Strings

  /** Inclusive value range of field `i`: minute, hour, day of month, month
      and day of week (0 is Sunday). */
  function FieldBounds(i: nat): (b: (nat, nat))
    requires i < 5
    ensures b.0 <= b.1
  {
    [(0, 59), (0, 23), (1, 31), (1, 12), (0, 6)][i]
  }

  predicate IsNumber(s: string) {
    |s| >= 1 && Strings.IsDigits(s)
  }

  predicate NumberIn(s: string, lo: nat, hi: nat) {
    IsNumber(s) && lo <= Strings.ParseNat(s) <= hi
  }

  /** `*`, a number, or a range `a-b` with `a <= b`, all within bounds. */
  predicate BaseValid(b: string, lo: nat, hi: nat) {
    || b == "*"
    || NumberIn(b, lo, hi)
    || (var ends := Strings.Split(b, '-');
        && |ends| == 2
        && NumberIn(ends[0], lo, hi) && NumberIn(ends[1], lo, hi)
        && Strings.ParseNat(ends[0]) <= Strings.ParseNat(ends[1]))
  }

  /** A base, optionally followed by `/` and a positive step. */
  predicate ItemValid(item: string, lo: nat, hi: nat) {
    var parts := Strings.Split(item, '/');
    || (|parts| == 1 && BaseValid(parts[0], lo, hi))
    || (|parts| == 2 && BaseValid(parts[0], lo, hi) && IsNumber(parts[1]) && Strings.ParseNat(parts[1]) >= 1)
  }

  predicate FieldValid(field: string, lo: nat, hi: nat) {
    var items := Strings.Split(field, ',');
    forall k :: 0 <= k < |items| ==> ItemValid(items[k], lo, hi)
  }

  /** Exactly five space-separated fields, each valid for its position. */
  predicate StandardValid(expr: string) {
    var fields := Strings.Split(expr, ' ');
    && |fields| == 5
    && forall i :: 0 <= i < 5 ==> FieldValid(fields[i], FieldBounds(i).0, FieldBounds(i).1)
  }

  /** An accepted expression has exactly four spaces, one between each pair
      of adjacent fields. */
  lemma StandardValidShape(expr: string)
    requires StandardValid(expr)
    ensures Strings.Count(expr, ' ') == 4
  {
  }

  /** Fields joined by single spaces are accepted exactly when there are five
      of them and each is valid for its position, for space-free fields. */
  lemma StandardValidJoin(fields: seq<string>)
    requires |fields| >= 1
    requires forall i :: 0 <= i < |fields| ==> ' ' !in fields[i]
    ensures StandardValid(Strings.Join(fields, " ")) <==>
      && |fields| == 5
      && forall i :: 0 <= i < 5 ==> FieldValid(fields[i], FieldBounds(i).0, FieldBounds(i).1)
  {
    Strings.SplitJoin(fields, ' ');
  }

  /** The fields of the every-minute expression. */
  lemma EveryMinuteFields()
    ensures Strings.Split("*/1 * * * *", ' ') == ["*/1", "*", "*", "*", "*"]
  {
    var fields := ["*/1", "*", "*", "*", "*"];
    Strings.JoinCons("*", ["*"], " ");
    Strings.JoinCons("*", ["*", "*"], " ");
    Strings.JoinCons("*", ["*", "*", "*"], " ");
    Strings.JoinCons("*/1", ["*", "*", "*", "*"], " ");
    assert ["*", "*"] == ["*"] + ["*"];
    assert ["*", "*", "*"] == ["*"] + ["*", "*"];
    assert ["*", "*", "*", "*"] == ["*"] + ["*", "*", "*"];
    assert fields == ["*/1"] + ["*", "*", "*", "*"];
    assert Strings.Join(fields, " ") == "*/1 * * * *";
    Strings.SplitJoin(fields, ' ');
  }

  // The items "*" with step 1, and "*" alone, are valid in every field.
  lemma EveryMinuteFieldsValid(lo: nat, hi: nat)
    ensures FieldValid("*/1", lo, hi)
    ensures FieldValid("*", lo, hi)
  {
    Strings.SplitWithoutSep("*", ',');
    Strings.SplitWithoutSep("*", '/');
    Strings.SplitWithoutSep("*/1", ',');
    Strings.JoinCons("*", ["1"], "/");
    assert Strings.Join(["*", "1"], "/") == "*/1";
    Strings.SplitJoin(["*", "1"], '/');
    assert Strings.ParseNat("1") == 1 by {
      assert "1"[..0] == "";
    }
    assert ItemValid("*/1", lo, hi);
    assert ItemValid("*", lo, hi);
  }

  /** Every minute, spelled with a step, is accepted. */
  lemma EveryMinuteValid()
    ensures StandardValid("*/1 * * * *")
  {
    var fields := ["*/1", "*", "*", "*", "*"];
    EveryMinuteFields();
    forall i | 0 <= i < 5
      ensures FieldValid(fields[i], FieldBounds(i).0, FieldBounds(i).1)
    {
      EveryMinuteFieldsValid(FieldBounds(i).0, FieldBounds(i).1);
    }
  }

  /** Every minute, spelled with a step, is accepted; a single word is not. */
  lemma StandardValidExamples()
    ensures StandardValid("*/1 * * * *")
    ensures !StandardValid("foo")
  {
    EveryMinuteValid();
    Strings.SplitWithoutSep("foo", ' ');
  }
}
