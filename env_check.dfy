/** The environment check script (test_env.py): the masked display of the
    API key and the outcome of the check. The key is the value read from
    DASHSCOPE_API_KEY, `""` when unset. */
module EnvCheck {

  /** n asterisks. */
  function Stars(n: nat): (r: string)
    ensures |r| == n
    ensures forall i :: 0 <= i < n ==> r[i] == '*'
  {
    if n == 0 then "" else Stars(n - 1) + "*"
  }

  /** The key as printed: a key longer than 12 characters shows its first 8
      and its last 4 with an asterisk for every character between; a shorter
      one is all asterisks. */
  function MaskKey(key: string): (r: string)
    ensures |r| == |key|
    ensures |key| > 12 ==> r[..8] == key[..8] && r[|r| - 4..] == key[|key| - 4..]
    ensures |key| > 12 ==> forall i :: 8 <= i < |r| - 4 ==> r[i] == '*'
    ensures |key| <= 12 ==> forall i :: 0 <= i < |r| ==> r[i] == '*'
  {
    if |key| > 12 then
      var r := key[..8] + Stars(|key| - 12) + key[|key| - 4..];
      assert r[..8] == key[..8];
      assert r[|r| - 4..] == key[|key| - 4..];
      r
    else Stars(|key|)
  }

  /** The mask never reveals more than 12 characters of the key. */
  lemma {:induction false} MaskRevealsAtMostTwelve(key: string)
    ensures |set i | 0 <= i < |key| && MaskKey(key)[i] != '*'| <= 12
  {
    var m := MaskKey(key);
    var shown := set i | 0 <= i < |key| && m[i] != '*';
    if |key| > 12 {
      assert shown <= Range(0, 8) + Range(|key| - 4, |key|);
      RangeSize(0, 8);
      RangeSize(|key| - 4, |key|);
      SubsetSize(shown, Range(0, 8) + Range(|key| - 4, |key|));
    } else {
      assert shown == {};
    }
  }

  function Range(lo: int, hi: int): (r: set<int>)
    ensures forall i :: i in r <==> lo <= i < hi
    decreases hi - lo
  {
    if lo >= hi then {} else Range(lo, hi - 1) + {hi - 1}
  }

  lemma {:induction false} RangeSize(lo: int, hi: int)
    requires lo <= hi
    ensures |Range(lo, hi)| == hi - lo
    decreases hi - lo
  {
    if lo < hi {
      RangeSize(lo, hi - 1);
      assert hi - 1 !in Range(lo, hi - 1);
    }
  }

  lemma SubsetSize(a: set<int>, b: set<int>)
    requires a <= b
    ensures |a| <= |b|
  {
    assert b == a + (b - a);
  }

  /** The check's outcome: without a key it exits 1; with one it prints the
      mask and the length, says whether the key has the usual `sk-` prefix
      and exits 0. */
  datatype Outcome = KeyMissing | KeyFound(masked: string, length: nat, formatOk: bool)

  predicate HasPrefix(s: string, p: string) {
    |p| <= |s| && s[..|p|] == p
  }

  function CheckEnvironment(key: string): (r: Outcome)
    ensures r.KeyMissing? <==> key == ""
    ensures r.KeyFound? ==> r.masked == MaskKey(key) && r.length == |key|
    ensures r.KeyFound? ==> (r.formatOk <==> HasPrefix(key, "sk-"))
  {
    if key == "" then KeyMissing else KeyFound(MaskKey(key), |key|, HasPrefix(key, "sk-"))
  }

  /** The script's exit status: 1 exactly for a missing key. */
  function ExitCode(o: Outcome): (code: int)
    ensures code == 0 || code == 1
    ensures code == 1 <==> o.KeyMissing?
  {
    if o.KeyMissing? then 1 else 0
  }
}
