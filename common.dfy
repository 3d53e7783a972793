/** Failure-carrying results shared by the other modules: the model's stand-in
    for the exceptions that the Python code raises. */
module Common {

  datatype Option<T> = None | Some(value: T)

  /** Either a value, or the error (exception) the code raises instead. */
  datatype Result<T, E> = Ok(value: T) | Err(error: E)

  /** Splitting a sequence around position `i`, stated once so that callers
      do not redo the extensionality argument in a crowded context. */
  lemma SplitAt<T>(s: seq<T>, i: nat)
    requires i < |s|
    ensures s[..i + 1] == s[..i] + [s[i]]
    ensures s == s[..i + 1] + s[i + 1..]
  {
  }

  /** The two parts of a concatenation are its slices. */
  lemma Halves<T>(a: seq<T>, b: seq<T>)
    ensures (a + b)[..|a|] == a && (a + b)[|a|..] == b
  {
  }

  lemma ConcatAssoc<T>(a: seq<T>, b: seq<T>, c: seq<T>)
    ensures (a + b) + c == a + (b + c)
  {
  }

  /** Some element of a non-empty set. */
  lemma Pick<T>(s: set<T>) returns (x: T)
    requires s != {}
    ensures x in s
  {
    x :| x in s;
  }

  /** Dropping `a` elements, then `b` more, drops `a + b`. */
  lemma DropDrop<T>(s: seq<T>, a: nat, b: nat)
    requires a + b <= |s|
    ensures s[a..][b..] == s[a + b..]
  {
  }
}
