/** Results that may be missing. */
module Options {
  /** A value, or the source's NULL or -1. */
  datatype Option<+T> = None | Some(value: T)

  /** What is already there, followed by the rest if the rest could be read. */
  function Prepend<T>(out: seq<T>, rest: Option<seq<T>>): Option<seq<T>> {
    match rest case None => None case Some(t) => Some(out + t)
  }

  lemma PrependNothing<T>(t: seq<T>)
    ensures [] + t == t && t + [] == t
  {
  }

  lemma PrependMore<T>(out: seq<T>, more: seq<T>, rest: Option<seq<T>>)
    ensures Prepend(out, Prepend(more, rest)) == Prepend(out + more, rest)
  {
    if rest.Some? {
      assert out + (more + rest.value) == out + more + rest.value;
    }
  }
}
