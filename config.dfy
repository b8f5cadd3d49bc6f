/** The constants of `config.py`: script types, their interpreters and the
    MIME table. */
module Config {

  const ScriptTypes: seq<string> := ["py", "pl", "rb", "sh", "js"]

  const Interpreters: seq<string> := ["python3", "perl", "ruby", "bash", "node"]

  /** `dict(zip(keys, values))`: pairs up to the shorter list; a later
      repeated key overrides an earlier one. */
  function ZipMap(keys: seq<string>, values: seq<string>): (m: map<string, string>)
    ensures forall k :: k in m <==> exists i :: 0 <= i < |keys| && i < |values| && keys[i] == k
    decreases |keys|
  {
    if keys == [] || values == [] then map[]
    else
      var n := if |keys| <= |values| then |keys| else |values|;
      var m := ZipMap(keys[..n - 1], values[..n - 1]);
      assert forall k :: k in m <==> exists i :: 0 <= i < n - 1 && keys[i] == k by {
        forall k | k in m ensures exists i :: 0 <= i < n - 1 && keys[i] == k {
          var i :| 0 <= i < |keys[..n - 1]| && i < |values[..n - 1]| && keys[..n - 1][i] == k;
          assert keys[i] == k;
        }
        forall k | exists i :: 0 <= i < n - 1 && keys[i] == k ensures k in m {
          var i :| 0 <= i < n - 1 && keys[i] == k;
          assert keys[..n - 1][i] == k;
        }
      }
      m[keys[n - 1] := values[n - 1]]
  }

  predicate Distinct(s: seq<string>) {
    forall i, j :: 0 <= i < j < |s| ==> s[i] != s[j]
  }

  /** With distinct keys, each key maps to the value at its own index. */
  lemma {:induction false} ZipMapAt(keys: seq<string>, values: seq<string>, i: nat)
    requires Distinct(keys) && |keys| == |values| && i < |keys|
    ensures keys[i] in ZipMap(keys, values) && ZipMap(keys, values)[keys[i]] == values[i]
    decreases |keys|
  {
    var n := |keys|;
    if i < n - 1 {
      ZipMapAt(keys[..n - 1], values[..n - 1], i);
    }
  }

  const InterpreterMap: map<string, string> := ZipMap(ScriptTypes, Interpreters)

  /** Every script type has an interpreter, the one at the same position. */
  lemma InterpreterFor(i: nat)
    requires i < |ScriptTypes|
    ensures ScriptTypes[i] in InterpreterMap
    ensures InterpreterMap[ScriptTypes[i]] == Interpreters[i]
  {
    ZipMapAt(ScriptTypes, Interpreters, i);
  }

  const MimeTypes: map<string, string> := map[
    "txt" := "text/plain",
    "html" := "text/html",
    "css" := "text/css",
    "js" := "application/javascript",
    "json" := "application/json",
    "png" := "image/png",
    "jpg" := "image/jpeg",
    "gif" := "image/gif"
  ]
}
