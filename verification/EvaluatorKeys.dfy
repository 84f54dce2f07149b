/** The store keys the evaluators use are the full keys of the policy's limit key, which decode uniquely. */
module EvaluatorKeys {
  import opened Keys
  import opened Model
  import Counter = SlidingCounterEvaluator
  import Windowed = WindowCas

  lemma WindowKeysAreStoreKeys(prefix: string, sha1: string -> Digest, scope: Attributes, req: Attributes, start: int)
    ensures Windowed.WindowKey(BuildKey(prefix, sha1, scope, req), start)
         == FullKey(prefix, sha1, scope, req, FixedWindow(start))
  {
    StoreKeys(prefix, sha1, scope, req, start);
  }

  lemma CounterKeysAreStoreKeys(prefix: string, sha1: string -> Digest, scope: Attributes, req: Attributes, start: int)
    ensures Counter.CounterKey(BuildKey(prefix, sha1, scope, req), start)
         == FullKey(prefix, sha1, scope, req, SlidingCounter(start))
  {
    StoreKeys(prefix, sha1, scope, req, start);
  }
}
