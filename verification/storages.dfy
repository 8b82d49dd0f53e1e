/** Naming a storage: by description or by number, in device paths (actor.rs:954-976) and at the root
    of the mounted volume (adapter.rs:786-794). */
module StorageNames {
  import opened Wrappers
  import opened Names
  import opened Phones
  import opened PlainActor
  import AdapterFacts

  predicate Described(su: Setup, i: nat, name: string)
    requires i < |su.storages|
  {
    Fold(su.phone.folding, su.storages[i].description) == Fold(su.phone.folding, name)
  }

  function Zeros(k: nat): string {
    seq(k, _ => '0')
  }

  /** A decimal number with any leading zeros, and at most one plus sign before them. */
  ghost predicate IsNumber(s: string, n: nat) {
    exists k: nat :: s == Zeros(k) + Decimal(n) || s == "+" + (Zeros(k) + Decimal(n))
  }

  ghost predicate AllDigits(s: string) {
    forall i :: 0 <= i < |s| ==> IsDigit(s[i])
  }

  /** A reference finds the first storage of that description; without one, the storage of that
      number, counted from one; and else none. */
  lemma StorageIsFound(su: Setup, reference: string, i: nat)
    ensures FindStorageIndex(su, reference) == Ok(i) <==>
        i < |su.storages|
        && if exists j :: 0 <= j < |su.storages| && Described(su, j, reference)
           then Described(su, i, reference) && forall j :: 0 <= j < i ==> !Described(su, j, reference)
           else IsNumber(reference, i + 1)
    ensures FindStorageIndex(su, reference).Err? ==> FindStorageIndex(su, reference) == Err(NotFound)
  {
    hide IsNumber, ParseIndex;
    PositionIsFirst(su.phone.folding, su.storages, reference);
    NumberIsParsed(reference, i + 1);
    var p := Position(su.phone.folding, su.storages, reference);
    if p.Some? {
      assert Described(su, p.value, reference);
      assert p.value < i < |su.storages| ==> !(forall j :: 0 <= j < i ==> !Described(su, j, reference));
    } else {
      assert forall j :: 0 <= j < |su.storages| ==> !Described(su, j, reference);
    }
  }

  lemma {:induction false} PositionIsFirst(f: Folding, storages: seq<StorageRec>, reference: string)
    ensures match Position(f, storages, reference)
            case Some(i) =>
              && i < |storages| && Fold(f, storages[i].description) == Fold(f, reference)
              && forall j :: 0 <= j < i ==> Fold(f, storages[j].description) != Fold(f, reference)
            case None => forall j :: 0 <= j < |storages| ==> Fold(f, storages[j].description) != Fold(f, reference)
  {
    if storages != [] && Fold(f, storages[0].description) != Fold(f, reference) {
      PositionIsFirst(f, storages[1..], reference);
      assert forall j :: 0 < j < |storages| ==> storages[j] == storages[1..][j - 1];
    }
  }

  lemma NumberIsParsed(s: string, n: nat)
    requires n > 0
    ensures ParseIndex(s) == Some(n) <==> IsNumber(s, n)
  {
    hide ParseIndex, DigitsValue, Decimal, Zeros;
    var digits := if s != "" && s[0] == '+' then s[1..] else s;
    DigitsParsed(s, digits);
    if ParseIndex(s) == Some(n) {
      var k := DigitsAreDecimal(digits);
      assert s == digits || s == "+" + digits;
    }
    if k: nat :| s == Zeros(k) + Decimal(n) || s == "+" + (Zeros(k) + Decimal(n)) {
      DecimalDigits(n);
      ZerosCount(k, Decimal(n));
      var d := Zeros(k) + Decimal(n);
      assert IsDigit(d[0]);
      assert digits == d;
    }
  }

  lemma DigitsParsed(s: string, digits: string)
    requires digits == if s != "" && s[0] == '+' then s[1..] else s
    ensures ParseIndex(s) == if digits != "" && AllDigits(digits) then Some(DigitsValue(digits)) else None
  {
  }

  lemma {:induction false} DecimalDigits(n: nat)
    ensures Decimal(n) != "" && AllDigits(Decimal(n)) && DigitsValue(Decimal(n)) == n
  {
    if n < 10 {
      assert Decimal(n)[..0] == "";
    } else {
      DecimalDigits(n / 10);
      var most, last := Decimal(n / 10), ('0' as int + n % 10) as char;
      assert (most + [last])[..|most|] == most;
    }
  }

  lemma {:induction false} ZerosCount(k: nat, s: string)
    requires AllDigits(s)
    ensures AllDigits(Zeros(k) + s) && DigitsValue(Zeros(k) + s) == DigitsValue(s)
    decreases k + |s|
  {
    var all := Zeros(k) + s;
    if s != "" {
      ZerosCount(k, s[..|s| - 1]);
      assert all[..|all| - 1] == Zeros(k) + s[..|s| - 1];
    } else if k > 0 {
      ZerosCount(k - 1, "");
      assert all[..|all| - 1] == Zeros(k - 1) + "";
    }
  }

  lemma {:induction false} DigitsAreDecimal(s: string) returns (k: nat)
    requires AllDigits(s) && DigitsValue(s) > 0
    ensures s == Zeros(k) + Decimal(DigitsValue(s))
  {
    var most, last := s[..|s| - 1], s[|s| - 1];
    assert IsDigit(last) && s == most + [last];
    if DigitsValue(most) == 0 {
      NothingButZeros(most);
      k := |most|;
      assert Decimal(DigitsValue(s)) == [last];
    } else {
      k := DigitsAreDecimal(most);
    }
  }

  lemma {:induction false} NothingButZeros(s: string)
    requires AllDigits(s) && DigitsValue(s) == 0
    ensures s == Zeros(|s|)
  {
    if s != "" {
      NothingButZeros(s[..|s| - 1]);
      assert IsDigit(s[|s| - 1]);
      assert s == s[..|s| - 1] + [s[|s| - 1]];
    }
  }

  /** Described so, or numbered so in plain decimal. */
  ghost predicate Called(su: Setup, i: nat, name: string) {
    i < |su.storages| && (Described(su, i, name) || name == Decimal(i + 1))
  }

  /** At the root of the volume a name means the first storage it describes or numbers. */
  lemma RootNameIsFirst(su: Setup, name: string, i: nat)
    ensures AdapterFacts.StorageNamed(su, name, 0) == Some(i) <==> Called(su, i, name) && forall j: nat :: j < i ==> !Called(su, j, name)
  {
    hide Called;
    FirstCalled(su, name, 0);
  }

  lemma {:induction false} FirstCalled(su: Setup, name: string, from: nat)
    ensures var found := AdapterFacts.StorageNamed(su, name, from);
            if found.Some? then Called(su, found.value, name) && from <= found.value && forall j: nat :: from <= j < found.value ==> !Called(su, j, name)
            else forall j: nat :: from <= j ==> !Called(su, j, name)
    decreases |su.storages| - from
  {
    if from < |su.storages| && !Called(su, from, name) {
      FirstCalled(su, name, from + 1);
    }
  }
}
