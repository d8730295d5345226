/** Small definitions shared by every part of the model. */
module Common {

  datatype Option<T> = None | Some(value: T)

  /** `readdir` reports these pseudo-entries for the directory itself and its parent. */
  predicate IsDotName(name: string)
  {
    name == "." || name == ".."
  }

  /** The path built with `strcpy(p, dir); strcat(p, "/"); strcat(p, name)`
      (or with `std::string` concatenation). */
  function JoinPath(dir: string, name: string): (p: string)
    ensures |p| == |dir| + 1 + |name|
    ensures p[..|dir|] == dir && p[|dir|] == '/' && p[|dir| + 1..] == name
  {
    dir + "/" + name
  }

  /** Entries of one directory give distinct paths exactly when their names differ. */
  lemma JoinPathInjective(dir: string, a: string, b: string)
    requires JoinPath(dir, a) == JoinPath(dir, b)
    ensures a == b
  {
    calc {
      a;
      JoinPath(dir, a)[|dir| + 1..];
      JoinPath(dir, b)[|dir| + 1..];
      b;
    }
  }

  /** A joined path always contains a slash, so it never equals a slash-free word. */
  lemma JoinPathHasSlash(dir: string, name: string)
    ensures '/' in JoinPath(dir, name)
  {
    assert JoinPath(dir, name)[|dir|] == '/';
  }
}
