/**
 * The form body of `post` and `put`: the ordered pairs from the command line are inserted one
 * after another into a `HashMap`, so a later pair overwrites an earlier one with the same key.
 */
module Forms {
  import opened KeyValues

  /** The keys that occur in `body`. */
  function KeysOf(body: seq<KeyValue>): (r: set<string>)
  {
    set i | 0 <= i < |body| :: body[i].key
  }

  /** No pair after position `i` carries the key of `body[i]`. */
  predicate IsLast(body: seq<KeyValue>, i: nat)
    requires i < |body|
  {
    forall j :: i < j < |body| ==> body[j].key != body[i].key
  }

  /** The map after inserting the pairs of `body` in order into an empty map. */
  function FormOf(body: seq<KeyValue>): (r: map<string, string>)
  {
    if body == [] then map[]
    else
      var last := body[|body| - 1];
      FormOf(body[..|body| - 1])[last.key := last.value]
  }

  /** Inserting one more pair sets its key and leaves every other entry as it was. */
  lemma FormOfInsert(body: seq<KeyValue>, kv: KeyValue)
    ensures FormOf(body + [kv]).Keys == FormOf(body).Keys + {kv.key}
    ensures FormOf(body + [kv])[kv.key] == kv.value
    ensures forall k | k in FormOf(body) && k != kv.key :: FormOf(body + [kv])[k] == FormOf(body)[k]
  {
    assert (body + [kv])[..|body|] == body;
  }

  /** The form has exactly the keys that occur in the body. */
  lemma {:induction false} FormOfKeys(body: seq<KeyValue>)
    ensures FormOf(body).Keys == KeysOf(body)
  {
    if body != [] {
      var n := |body| - 1;
      var init := body[..n];
      FormOfKeys(init);
      assert KeysOf(body) == KeysOf(init) + {body[n].key} by {
        forall k | k in KeysOf(body) ensures k in KeysOf(init) + {body[n].key} {
          var i :| 0 <= i < |body| && body[i].key == k;
          if i < n { assert init[i] == body[i]; }
        }
        forall k | k in KeysOf(init) ensures k in KeysOf(body) {
          var i :| 0 <= i < |init| && init[i].key == k;
          assert body[i] == init[i];
        }
      }
    }
  }

  /** Each key is sent to the value of its last occurrence in the body. */
  lemma {:induction false} FormOfLastWins(body: seq<KeyValue>, i: nat)
    requires i < |body| && IsLast(body, i)
    ensures body[i].key in FormOf(body) && FormOf(body)[body[i].key] == body[i].value
  {
    var n := |body| - 1;
    if i < n {
      var init := body[..n];
      assert body[n].key != body[i].key;
      assert init[i] == body[i];
      assert IsLast(init, i) by {
        forall j | i < j < |init| ensures init[j].key != init[i].key {
          assert init[j] == body[j];
        }
      }
      FormOfLastWins(init, i);
    }
  }

  /** The form never has more entries than the body has pairs. */
  lemma {:induction false} FormOfSize(body: seq<KeyValue>)
    ensures |FormOf(body)| <= |body|
  {
    if body != [] {
      var n := |body| - 1;
      FormOfSize(body[..n]);
      var m := FormOf(body[..n]);
      assert FormOf(body).Keys == m.Keys + {body[n].key};
      assert |m.Keys + {body[n].key}| <= |m.Keys| + 1;
    }
  }

  /** The body examples: no pairs give an empty form; `a=1 a=2` gives `{a: "2"}`. */
  lemma FormExamples()
    ensures FormOf([]) == map[]
    ensures FormOf([KeyValue("a", "1"), KeyValue("a", "2")]) == map["a" := "2"]
  {
    var body := [KeyValue("a", "1"), KeyValue("a", "2")];
    assert body[..1] == [KeyValue("a", "1")];
    assert body[..1][..0] == [];
  }

  /** The loop of `post` and `put`: insert every pair, in order, into a map that starts empty. */
  method BuildForm(body: seq<KeyValue>) returns (form: map<string, string>)
    ensures form == FormOf(body)
    ensures form.Keys == KeysOf(body)
    ensures |form| <= |body|
  {
    form := map[];
    var n := 0;
    while n < |body|
      invariant n <= |body|
      invariant form == FormOf(body[..n])
      invariant |form| <= n
    {
      assert body[..n + 1] == body[..n] + [body[n]];
      FormOfInsert(body[..n], body[n]);
      form := form[body[n].key := body[n].value];
      n := n + 1;
    }
    assert body[..n] == body;
    FormOfKeys(body);
  }
}
