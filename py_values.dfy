/**
 * The dynamically typed values that travel through the recognition logs:
 * a person name is sometimes a string, sometimes `None`, and sometimes the
 * whole user payload (a dict).  Only the shapes the log code distinguishes
 * are modelled: `None`, `int`, `str` and `dict` with string keys, whose
 * items keep insertion order as Python dicts do.
 */
module PyValues {

  datatype PyVal =
    | PyNone
    | PyInt(i: int)
    | PyStr(s: string)
    | PyDict(items: seq<(string, PyVal)>)

  /** `k in d` for a dict with items `items`. */
  predicate HasKey(items: seq<(string, PyVal)>, k: string) {
    exists i :: 0 <= i < |items| && items[i].0 == k
  }

  /** `d[k]`: the value stored under key `k`. */
  function Get(items: seq<(string, PyVal)>, k: string): (v: PyVal)
    requires HasKey(items, k)
    ensures exists i :: 0 <= i < |items| && items[i] == (k, v)
                        && forall j :: 0 <= j < i ==> items[j].0 != k
  {
    if items[0].0 == k then items[0].1
    else
      assert HasKey(items[1..], k) by {
        var i :| 0 <= i < |items| && items[i].0 == k;
        assert items[1..][i - 1].0 == k;
      }
      var v := Get(items[1..], k);
      ghost var i :| 0 <= i < |items[1..]| && items[1..][i] == (k, v)
                     && forall j :: 0 <= j < i ==> items[1..][j].0 != k;
      assert items[i + 1] == (k, v);
      v
  }

  /** Only dicts (among the modelled values) are unhashable and cannot be dict keys. */
  predicate Hashable(v: PyVal) {
    !v.PyDict?
  }

  function DigitChar(d: nat): char
    requires d < 10
  {
    "0123456789"[d]
  }

  predicate AllDigits(s: string) {
    forall i :: 0 <= i < |s| ==> '0' <= s[i] <= '9'
  }

  /** Decimal digits of `n`, as Python's `str` prints a non-negative int. */
  function NatToString(n: nat): (s: string)
    ensures |s| >= 1 && AllDigits(s)
    ensures |s| > 1 ==> s[0] != '0'
  {
    if n < 10 then [DigitChar(n)] else NatToString(n / 10) + [DigitChar(n % 10)]
  }

  /** The number a string of decimal digits denotes. */
  function DigitsValue(s: string): nat
    requires AllDigits(s)
  {
    if s == [] then 0
    else DigitsValue(s[..|s| - 1]) * 10 + (s[|s| - 1] - '0') as int
  }

  lemma {:induction false} NatToStringRoundTrip(n: nat)
    ensures DigitsValue(NatToString(n)) == n
  {
    if n >= 10 {
      NatToStringRoundTrip(n / 10);
      var s := NatToString(n);
      assert s[..|s| - 1] == NatToString(n / 10);
    }
  }

  /** `str(i)` for an int. */
  function IntToString(i: int): string {
    if i < 0 then "-" + NatToString(-i) else NatToString(i)
  }

  /**
   * `str(v)` for the values the log code converts: anything but a dict,
   * and the empty dict (whose text is "{}").
   */
  function Str(v: PyVal): string
    requires !v.PyDict? || v.items == []
  {
    match v
    case PyNone => "None"
    case PyInt(i) => IntToString(i)
    case PyStr(s) => s
    case PyDict(_) => "{}"
  }

  /**
   * The name the log code extracts from a dict-valued person: its "name"
   * entry, else its first value, else (the dict being empty, so that
   * `next(iter(...))` raises) the text of the empty dict.
   */
  function DictName(items: seq<(string, PyVal)>): PyVal {
    if HasKey(items, "name") then Get(items, "name")
    else if items != [] then items[0].1
    else PyStr(Str(PyDict([])))
  }
}
