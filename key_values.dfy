/**
 * `key=value` command-line arguments: `KeyValue::from_str` and `parse_key_value`.
 * The argument is split with `splitn(2, '=')`, i.e. at the first '=' only; an argument
 * without '=' yields a single part and is refused. Nothing is trimmed.
 */
module KeyValues {
  import opened Wrappers

  datatype KeyValue = KeyValue(key: string, value: string)

  /** Index of the first occurrence of `c` in `s`, if any. */
  function FindFirst(s: string, c: char): (r: Option<nat>)
    ensures r.None? <==> c !in s
    ensures r.Some? ==> r.value < |s| && s[r.value] == c && c !in s[..r.value]
  {
    if s == [] then None
    else if s[0] == c then Some(0)
    else match FindFirst(s[1..], c)
      case None => None
      case Some(i) => Some(i + 1)
  }

  /** `s.splitn(2, sep)`: the part before the first `sep` and the rest, or `[s]` when there is none. */
  function SplitOnce(s: string, sep: char): (parts: seq<string>)
    ensures |parts| == 1 || |parts| == 2
    ensures |parts| == 1 <==> sep !in s
    ensures |parts| == 1 ==> parts[0] == s
    ensures |parts| == 2 ==> parts[0] + [sep] + parts[1] == s && sep !in parts[0]
  {
    match FindFirst(s, sep)
    case None => [s]
    case Some(i) =>
      assert s[..i] + [sep] + s[i + 1..] == s by {
        assert s == s[..i] + s[i..];
        assert s[i..] == [s[i]] + s[i + 1..];
      }
      [s[..i], s[i + 1..]]
  }

  /**
   * `KeyValue::from_str` (and `parse_key_value`, which only calls it).
   * It fails exactly when there is no '='; otherwise the key is everything before the first '='
   * and the value everything after it, so `key + "=" + value` gives back the argument.
   */
  function FromStr(s: string): (r: Result<KeyValue>)
    ensures r.Err? <==> '=' !in s
    ensures r.Err? ==> r.error == InvalidKeyValue(s)
    ensures r.Ok? ==> Format(r.value) == s && '=' !in r.value.key
  {
    var parts := SplitOnce(s, '=');
    if |parts| != 2 then Err(InvalidKeyValue(s))
    else Ok(KeyValue(parts[0], parts[1]))
  }

  /** The argument a pair is written as on the command line. */
  function Format(kv: KeyValue): (r: string)
  {
    kv.key + "=" + kv.value
  }

  /** The first '=' of `k + [c] + v` is the `c` after `k` when `k` holds no '='. */
  lemma {:induction false} FindFirstAfterPrefix(k: string, c: char, v: string)
    requires c !in k
    ensures FindFirst(k + [c] + v, c) == Some(|k|)
  {
    if k != [] {
      assert (k + [c] + v)[1..] == k[1..] + [c] + v;
      FindFirstAfterPrefix(k[1..], c, v);
    }
  }

  /** Writing a pair and parsing it back gives the same pair exactly when its key holds no '='. */
  lemma ParseFormat(kv: KeyValue)
    ensures FromStr(Format(kv)) == Ok(kv) <==> '=' !in kv.key
  {
    if '=' !in kv.key {
      var s := Format(kv);
      assert s == kv.key + ['='] + kv.value;
      FindFirstAfterPrefix(kv.key, '=', kv.value);
      assert s[..|kv.key|] == kv.key;
      assert s[|kv.key| + 1..] == kv.value;
    }
  }

  /** Parsing is determined by the first '=': any split `k=v` with `k` free of '=' is the result. */
  lemma ParseSplit(s: string, k: string, v: string)
    requires s == k + "=" + v
    requires '=' !in k
    ensures FromStr(s) == Ok(KeyValue(k, v))
  {
    ParseFormat(KeyValue(k, v));
  }

  /** The argument examples: "a" is refused, "a=1", "b=" (empty value) and "a=b=c" (later '=' kept). */
  lemma ParseExamples()
    ensures FromStr("a") == Err(InvalidKeyValue("a"))
    ensures FromStr("a=1") == Ok(KeyValue("a", "1"))
    ensures FromStr("b=") == Ok(KeyValue("b", ""))
    ensures FromStr("a=b=c") == Ok(KeyValue("a", "b=c"))
  {
    ParseSplit("a=1", "a", "1");
    ParseSplit("b=", "b", "");
    ParseSplit("a=b=c", "a", "b=c");
  }
}
