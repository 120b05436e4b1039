/** Player-name filtering done when a game starts: a name is kept when it
    still has a character after stripping whitespace. Names are kept as
    typed (never trimmed) and in input order. */
module Names {

  /** The characters Python's `str.strip()` removes by default: those for
      which `str.isspace()` holds. */
  predicate IsWhitespace(c: char)
  {
    var n := c as int;
    (9 <= n <= 13) || (28 <= n <= 32) || n == 0x85 || n == 0xA0 || n == 0x1680
    || (0x2000 <= n <= 0x200A) || n == 0x2028 || n == 0x2029 || n == 0x202F
    || n == 0x205F || n == 0x3000
  }

  /** `name.strip()` is non-empty exactly when some character is not whitespace. */
  predicate HasText(name: string)
  {
    exists i :: 0 <= i < |name| && !IsWhitespace(name[i])
  }

  /** `s` without its leading whitespace. */
  function LStrip(s: string): (r: string)
    ensures |r| <= |s| && r == s[|s| - |r|..]
    ensures r != [] ==> !IsWhitespace(r[0])
    ensures forall i :: 0 <= i < |s| - |r| ==> IsWhitespace(s[i])
  {
    if s != [] && IsWhitespace(s[0]) then LStrip(s[1..]) else s
  }

  /** `s` without its trailing whitespace. */
  function RStrip(s: string): (r: string)
    ensures |r| <= |s| && r == s[..|r|]
    ensures r != [] ==> !IsWhitespace(r[|r| - 1])
    ensures forall i :: |r| <= i < |s| ==> IsWhitespace(s[i])
  {
    if s != [] && IsWhitespace(s[|s| - 1]) then RStrip(s[..|s| - 1]) else s
  }

  /** Python's `name.strip()`: leading and trailing whitespace removed. */
  function Strip(name: string): string
  {
    RStrip(LStrip(name))
  }

  /** A name has text exactly when stripping it leaves something: the
      predicate is the truth test `name.strip()` of the page. */
  lemma HasTextStrip(name: string)
    ensures HasText(name) <==> Strip(name) != []
  {
  }

  /** The names of `names` that have text, in order, untrimmed. */
  function KeepNamed(names: seq<string>): (kept: seq<string>)
    ensures |kept| <= |names|
  {
    if names == [] then []
    else
      var last := names[|names| - 1];
      KeepNamed(names[..|names| - 1]) + (if HasText(last) then [last] else [])
  }

  /** A name is kept exactly when it was typed and has text. */
  lemma {:induction false} KeepNamedMembers(names: seq<string>, x: string)
    ensures x in KeepNamed(names) <==> x in names && HasText(x)
  {
    if names != [] {
      var init := names[..|names| - 1];
      KeepNamedMembers(init, x);
      assert names == init + [names[|names| - 1]];
    }
  }

  /** Filtering distributes over concatenation: names keep their relative order. */
  lemma {:induction false} KeepNamedAppend(a: seq<string>, b: seq<string>)
    ensures KeepNamed(a + b) == KeepNamed(a) + KeepNamed(b)
  {
    if b == [] {
      assert a + b == a;
    } else {
      var b' := b[..|b| - 1];
      assert (a + b)[..|a + b| - 1] == a + b';
      KeepNamedAppend(a, b');
    }
  }

  /** A list in which every name has text is kept unchanged: nothing is trimmed. */
  lemma {:induction false} KeepNamedAllNamed(names: seq<string>)
    requires forall x :: x in names ==> HasText(x)
    ensures KeepNamed(names) == names
  {
    if names != [] {
      var init := names[..|names| - 1];
      var last := names[|names| - 1];
      assert forall i :: 0 <= i < |init| ==> init[i] == names[i];
      KeepNamedAllNamed(init);
      assert HasText(last);
      assert init + [last] == names;
    }
  }

  /** One name on its own is kept exactly when it has text. */
  lemma KeepNamedSingle(name: string)
    ensures KeepNamed([name]) == if HasText(name) then [name] else []
  {
  }
}
