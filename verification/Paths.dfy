/** Canonical artifact paths (NewPath in artifact/value.go, on io/fs.ValidPath) and the walk
    to the parents of a path.  A character stands for one byte of the path. */
module Paths {
  import opened Text

  predicate Continuation(c: char) {
    '\U{80}' <= c <= '\U{BF}'
  }

  /** The width of the UTF-8 sequence s starts with, or 0 when it is malformed. */
  function RuneWidth(s: string): (width: nat)
    ensures width <= |s|
  {
    if s == "" then 0
    else if s[0] < '\U{80}' then 1
    else if |s| >= 2 && '\U{C2}' <= s[0] <= '\U{DF}' && Continuation(s[1]) then 2
    else if |s| >= 3 && Continuation(s[1]) && Continuation(s[2])
            && '\U{E0}' <= s[0] <= '\U{EF}'
            && (s[0] == '\U{E0}' ==> s[1] >= '\U{A0}') && (s[0] == '\U{ED}' ==> s[1] <= '\U{9F}') then 3
    else if |s| >= 4 && Continuation(s[1]) && Continuation(s[2]) && Continuation(s[3])
            && '\U{F0}' <= s[0] <= '\U{F4}'
            && (s[0] == '\U{F0}' ==> s[1] >= '\U{90}') && (s[0] == '\U{F4}' ==> s[1] <= '\U{8F}') then 4
    else 0
  }

  predicate Utf8(s: string) {
    s == "" || (RuneWidth(s) > 0 && Utf8(s[RuneWidth(s)..]))
  }

  /** No empty, "." or ".." element. */
  predicate Clean(s: string) {
    forall part | part in Split(s, '/') :: part != "" && part != "." && part != ".."
  }

  /** io/fs.ValidPath. */
  predicate ValidPath(name: string) {
    Utf8(name) && (name == "." || Clean(name))
  }

  predicate CanonicalPath(name: string) {
    name != "" && name != "." && ValidPath(name) && '\\' !in name && '\0' !in name
  }

  function LastSlash(s: string): (i: nat)
    requires '/' in s
    ensures i < |s| && s[i] == '/' && forall k | i < k < |s| :: s[k] != '/'
    decreases |s|
  {
    if s[|s| - 1] == '/' then |s| - 1 else LastSlash(s[..|s| - 1])
  }

  /** path.Dir on a clean path: everything before the last slash, or ".". */
  function Dir(name: string): string
    requires Clean(name)
  {
    if '/' in name then name[..LastSlash(name)] else "."
  }

  /** strings.HasPrefix(name, owner + "/"). */
  predicate Ancestor(owner: string, name: string) {
    owner + "/" <= name
  }

  lemma {:induction false} SplitAtSlash(a: string, b: string)
    ensures Split(a + "/" + b, '/') == Split(a, '/') + Split(b, '/')
  {
    var s := a + "/" + b;
    if a == "" {
      assert s[1..] == b;
    } else {
      assert s[1..] == a[1..] + "/" + b;
      SplitAtSlash(a[1..], b);
    }
  }

  /** The text before any slash of a clean path is again a clean path, and not ".". */
  lemma CleanPrefix(name: string, i: nat)
    requires Clean(name) && i < |name| && name[i] == '/'
    ensures Clean(name[..i]) && name[..i] != "" && name[..i] != "."
  {
    assert name == name[..i] + "/" + name[i + 1..];
    SplitAtSlash(name[..i], name[i + 1..]);
    forall part | part in Split(name[..i], '/') ensures part in Split(name, '/') {
    }
    assert "" in Split("", '/');
    SplitWithout(".", '/');
    assert "." in Split(".", '/');
  }

  lemma AncestorAt(owner: string, name: string)
    ensures Ancestor(owner, name) <==> |owner| < |name| && name[|owner|] == '/' && name[..|owner|] == owner
  {
    if |owner| < |name| && name[|owner|] == '/' && name[..|owner|] == owner {
      assert name == owner + "/" + name[|owner| + 1..];
    }
  }

  /** One step up: the next ancestor, with none in between. */
  lemma DirStep(name: string, at: string)
    requires Clean(name) && Clean(at) && at != "."
    requires at == name || Ancestor(at, name)
    ensures Dir(at) == "." || (Clean(Dir(at)) && Dir(at) != "" && Ancestor(Dir(at), name) && |Dir(at)| < |at|)
    ensures forall owner | Ancestor(owner, name) && |owner| < |at| :: Dir(at) != "." && |owner| <= |Dir(at)|
  {
    assert at <= name;
    if '/' in at {
      CleanPrefix(at, LastSlash(at));
      AncestorAt(Dir(at), name);
      assert at == name[..|at|];
    }
    forall owner | Ancestor(owner, name) && |owner| < |at| ensures Dir(at) != "." && |owner| <= |Dir(at)| {
      AncestorAt(owner, name);
      assert at[|owner|] == '/';
    }
  }
}
