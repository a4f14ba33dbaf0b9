/** The global helper functions of the tool: the `boolean()` coercion,
    `array_combine_safe`, `array_limit_keys` and `config()`. */
module Helpers {
  import opened Php
  import opened OrderedArrays

  // ---------------------------------------------------------------------
  // boolean($var)

  /** The strings that coerce to true, compared after lowering. */
  const TrueWords: seq<string> := ["true", "on", "yes", "y", "1"]

  /** `boolean()`: booleans pass through; a string is true only when it is one
      of the true words in any letter case; a number is true only when it
      equals 1; anything else falls back to PHP's truthiness. */
  function Boolean(v: Value): bool {
    match v
    case Bool(b) => b
    case Str(s) => Lower(s) in TrueWords
    case Int(i) => i == 1
    case Real(r) => r == 1.0
    case _ => !Falsy(v)
  }

  predicate IsLowerWord(w: string) {
    forall i :: 0 <= i < |w| ==> LowerChar(w[i]) == w[i]
  }

  /** Lowering a string gives a word with no capitals exactly when the two
      agree letter for letter, ignoring case. */
  lemma LowerMatchesIgnoringCase(s: string, w: string)
    requires IsLowerWord(w)
    ensures Lower(s) == w <==> EqualsIgnoreCase(s, w)
  {
    if EqualsIgnoreCase(s, w) {
      assert forall i :: 0 <= i < |s| ==> Lower(s)[i] == w[i];
    }
  }

  /** A string is true exactly when it spells one of the true words in some
      mix of upper and lower case; every other string is false. */
  lemma BooleanOfString(s: string)
    ensures Boolean(Str(s)) <==> exists w :: w in TrueWords && EqualsIgnoreCase(s, w)
  {
    forall w | w in TrueWords ensures Lower(s) == w <==> EqualsIgnoreCase(s, w) {
      LowerMatchesIgnoringCase(s, w);
    }
  }

  /** Letter case never changes the coercion of a string. */
  lemma BooleanIgnoresCase(s: string, t: string)
    requires EqualsIgnoreCase(s, t)
    ensures Boolean(Str(s)) == Boolean(Str(t))
  {
    assert Lower(s) == Lower(t);
  }

  /** `boolean()` is stricter than PHP's own truthiness: whatever it accepts,
      `boolval()` accepts too. */
  lemma BooleanImpliesTruthy(v: Value)
    ensures Boolean(v) ==> !Falsy(v)
  {
    if v.Str? && Boolean(v) {
      assert |Lower(v.s)| == |v.s|;
    }
  }

  /** The table of the doc comment, for values that are not strings:
      numbers other than 1, null and the empty array are false. */
  lemma BooleanTableNonStrings()
    ensures !Boolean(Int(0)) && !Boolean(Int(42)) && !Boolean(Real(4.2)) && Boolean(Int(1))
    ensures !Boolean(Null) && !Boolean(Arr(0)) && Boolean(Arr(2)) && Boolean(Obj)
    ensures Boolean(Bool(true)) && !Boolean(Bool(false))
  {
  }

  /** The table of the doc comment, for strings that coerce to true: "1",
      "yes", "y", "true", in any letter case. */
  lemma BooleanTableTrueStrings()
    ensures Boolean(Str("1")) && Boolean(Str("yes")) && Boolean(Str("y"))
    ensures Boolean(Str("true")) && Boolean(Str("ON")) && Boolean(Str("Yes"))
  {
    assert Lower("1") == "1";
    assert Lower("yes") == "yes";
    assert Lower("y") == "y";
    assert Lower("true") == "true";
    assert Lower("ON") == "on";
    assert Lower("Yes") == "yes";
  }

  /** The table of the doc comment: the empty string and "0" are false. */
  lemma BooleanTableEmptyStrings()
    ensures !Boolean(Str("")) && !Boolean(Str("0"))
  {
    LowerOfLowerWord("0");
  }

  /** The table of the doc comment: "no" and "n" are false. */
  lemma BooleanTableNegatives()
    ensures !Boolean(Str("no")) && !Boolean(Str("n"))
  {
    LowerOfLowerWord("no");
    LowerOfLowerWord("n");
  }

  /** No true word is longer than four characters, so "false", "string" and
      every other longer string are false. */
  lemma BooleanOfLongString(s: string)
    requires |s| > 4
    ensures !Boolean(Str(s))
  {
    assert |Lower(s)| == |s|;
  }

  lemma LowerOfLowerWord(w: string)
    requires IsLowerWord(w)
    ensures Lower(w) == w
  {
  }

  // ---------------------------------------------------------------------
  // array_combine_safe($keys, $values, $default)

  /** `isset($values[$i]) ? $values[$i] : $default` for a list of values. */
  function ValueAt(values: seq<Value>, i: nat, default: Value): Value {
    if i < |values| && IsSet(values[i]) then values[i] else default
  }

  /** `array_combine_safe`: each key paired with the value at its index, or
      with the default when that value is missing or null. A repeated key
      keeps its first position and takes its last value. */
  function CombineSafe<K(==)>(keys: seq<K>, values: seq<Value>, default: Value): (r: seq<(K, Value)>)
    ensures DistinctKeys(r)
    ensures |keys| == 0 ==> r == []
    ensures KeySet(r) == Elements(keys)
    ensures KeysOf(r) == Unique(keys)
    ensures forall i :: 0 <= i < |keys| && keys[i] !in keys[i + 1..] ==> (keys[i], ValueAt(values, i, default)) in r
  {
    var pairs := seq(|keys|, i requires 0 <= i < |keys| => (keys[i], ValueAt(values, i, default)));
    var first := (p: (K, Value)) => p.0;
    assert Project(pairs, first) == keys;
    IndexBy(pairs, first, (p: (K, Value)) => p.1)
  }

  // ---------------------------------------------------------------------
  // array_limit_keys($keys, $input)

  /** `array_limit_keys`: the entries of `input` whose keys are listed, values
      untouched (null ones included), in the order the keys are listed. */
  function LimitKeys<K(==), V>(keys: seq<K>, input: seq<(K, V)>): (r: seq<(K, V)>)
    requires DistinctKeys(input)
    ensures DistinctKeys(r)
    ensures |keys| == 0 ==> r == []
    ensures KeySet(r) == Elements(keys) * KeySet(input)
    ensures forall e :: e in r ==> e in input
  {
    if |keys| == 0 then []
    else
      var n := |keys| - 1;
      var a := LimitKeys(keys[..n], input);
      ElementsSnoc(keys);
      if keys[n] in KeySet(input) then Put(a, keys[n], Get(input, keys[n])) else a
  }

  /** The kept keys come in the order the keys are listed, each once: a
      repeated key keeps its first position. */
  lemma {:induction false} LimitKeysOrder<K, V>(keys: seq<K>, input: seq<(K, V)>)
    requires DistinctKeys(input)
    ensures KeysOf(LimitKeys(keys, input)) == Among(Unique(keys), KeySet(input))
  {
    if |keys| > 0 {
      var n := |keys| - 1;
      LimitKeysOrder(keys[..n], input);
      var a := LimitKeys(keys[..n], input);
      ElementsSnoc(keys);
      LimitKeysStep(keys, KeySet(input), KeysOf(a), KeySet(a));
      if keys[n] in KeySet(input) {
        var v := Get(input, keys[n]);
        assert KeysOf(Put(a, keys[n], v)) == if keys[n] in KeySet(a) then KeysOf(a) else KeysOf(a) + [keys[n]];
      }
    }
  }

  /** The values of `s` that lie in `ks`, in the order of `s`. */
  function Among<K>(s: seq<K>, ks: set<K>): (r: seq<K>)
    ensures forall i :: 0 <= i < |r| ==> r[i] in s && r[i] in ks
    ensures forall i :: 0 <= i < |s| && s[i] in ks ==> s[i] in r
  {
    if |s| == 0 then []
    else
      var n := |s| - 1;
      assert s == s[..n] + [s[n]];
      Among(s[..n], ks) + if s[n] in ks then [s[n]] else []
  }

  lemma AmongSnoc<K>(s: seq<K>, x: K, ks: set<K>)
    ensures Among(s + [x], ks) == Among(s, ks) + if x in ks then [x] else []
  {
    assert (s + [x])[..|s|] == s;
  }

  /** The step of `LimitKeys`: the last listed key is appended to the kept
      keys when the input has it and it was not listed before. */
  lemma LimitKeysStep<K>(keys: seq<K>, ks: set<K>, kept: seq<K>, keptSet: set<K>)
    requires |keys| > 0
    requires keptSet == Elements(keys[..|keys| - 1]) * ks
    requires kept == Among(Unique(keys[..|keys| - 1]), ks)
    ensures keys[|keys| - 1] in ks ==>
      Among(Unique(keys), ks) == if keys[|keys| - 1] in keptSet then kept else kept + [keys[|keys| - 1]]
    ensures keys[|keys| - 1] !in ks ==> Among(Unique(keys), ks) == kept
  {
    var n := |keys| - 1;
    var init, last := keys[..n], keys[n];
    var u := Unique(init);
    assert Unique(keys) == if last in u then u else u + [last];
    AmongSnoc(u, last, ks);
    if last !in ks {
      assert Among(u + [last], ks) == Among(u, ks) + [];
      assert Among(u, ks) + [] == Among(u, ks);
    }
    if last in init {
      var i :| 0 <= i < n && init[i] == last;
      assert last in u;
      assert last in Elements(init);
    } else {
      assert last !in u;
      assert last !in Elements(init);
    }
  }

  /** Limiting to some keys keeps exactly the input's value for each kept key. */
  lemma LimitKeysIsSubMap<K, V>(keys: seq<K>, input: seq<(K, V)>, k: K)
    requires DistinctKeys(input)
    requires k in KeySet(input) && k in keys
    ensures (k, Get(input, k)) in LimitKeys(keys, input)
  {
    var r := LimitKeys(keys, input);
    var i :| 0 <= i < |keys| && keys[i] == k;
    assert k in KeySet(r);
    var j :| 0 <= j < |r| && r[j].0 == k;
    assert r[j] in input;
    var p := IndexOfKey(input, k);
    var q :| 0 <= q < |input| && input[q] == r[j];
    assert q == p;
  }

  // ---------------------------------------------------------------------
  // config($key, $default)

  /** `config()`: the environment's value whenever the key is present, even
      an empty one, and the default otherwise. */
  function Config(env: map<string, string>, key: string, default: Value): (r: Value)
    ensures r == default || r.Str?
  {
    if key in env then Str(env[key]) else default
  }

  /** Setting a key changes what `config()` reports for that key only, and
      the stored value wins over any default, even when it is empty. */
  lemma ConfigAfterSet(env: map<string, string>, key: string, value: string, other: string, default: Value)
    requires other != key
    ensures Config(env[key := value], key, default) == Str(value)
    ensures Config(env[key := value], other, default) == Config(env, other, default)
    ensures key !in env ==> Config(env, key, default) == default
  {
  }
}
