/** Python's `max(xs, key=f)` and `min(xs, key=f)` over a non-empty
    sequence of keys: a left-to-right scan that replaces its candidate only
    on a strictly better key, so the FIRST extreme element wins a tie. */
module Extremes {

  function ArgMax(s: seq<int>): (i: nat)
    requires |s| > 0
    ensures i < |s|
    ensures forall j :: 0 <= j < |s| ==> s[j] <= s[i]
    ensures forall j :: 0 <= j < i ==> s[j] < s[i]
  {
    if |s| == 1 then 0
    else
      var b := ArgMax(s[..|s| - 1]);
      if s[|s| - 1] > s[b] then |s| - 1 else b
  }

  function ArgMin(s: seq<int>): (i: nat)
    requires |s| > 0
    ensures i < |s|
    ensures forall j :: 0 <= j < |s| ==> s[i] <= s[j]
    ensures forall j :: 0 <= j < i ==> s[i] < s[j]
  {
    if |s| == 1 then 0
    else
      var b := ArgMin(s[..|s| - 1]);
      if s[|s| - 1] < s[b] then |s| - 1 else b
  }
}
