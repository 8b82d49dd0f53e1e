/** Name matching: `crates/core/src/names.rs`.

    Unicode lower-casing and NFC normalisation are parameters; nothing is assumed of
    them except that two names equal up to ASCII case have the same lower-case form. */
module Names {

  function AsciiLower(c: char): char {
    if 'A' <= c <= 'Z' then ((c as int) - ('A' as int) + ('a' as int)) as char else c
  }

  predicate EqIgnoreAsciiCase(a: string, b: string) {
    |a| == |b| && forall i :: 0 <= i < |a| ==> AsciiLower(a[i]) == AsciiLower(b[i])
  }

  datatype Tables = Tables(lower: string -> string, nfc: string -> string)

  ghost predicate LawfulTables(t: Tables) {
    forall a, b :: EqIgnoreAsciiCase(a, b) ==> t.lower(a) == t.lower(b)
  }

  ghost function Identity(): (t: Tables)
    ensures LawfulTables(t)
  {
    Tables(s => "", s => s)
  }

  type Folding = t: Tables | LawfulTables(t) ghost witness Identity()

  /** The fold every name comparison goes through. */
  function Fold(f: Folding, s: string): string {
    f.nfc(f.lower(s))
  }

  /** `names_eq`, with its byte-equality fast path. */
  predicate NamesEq(f: Folding, a: string, b: string) {
    a == b || f.nfc(a) == f.nfc(b)
  }

  /** `names_eq_ci`, with its ASCII fast path. */
  predicate NamesEqCi(f: Folding, a: string, b: string) {
    EqIgnoreAsciiCase(a, b) || NamesEq(f, f.lower(a), f.lower(b))
  }

  /** The two fast paths never change the answer: `names_eq_ci` is equality of folds, so it
      is an equivalence relation and the elements it matches form classes. */
  lemma NamesEqCiIsFoldEquality(f: Folding, a: string, b: string)
    ensures NamesEqCi(f, a, b) <==> Fold(f, a) == Fold(f, b)
  {
    if EqIgnoreAsciiCase(a, b) {
      assert f.lower(a) == f.lower(b);
    }
  }
}
