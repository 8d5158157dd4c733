/**
 * `camel_to_snake` (local_search/helpers/camel_to_snake.py): the regular-expression
 * substitution `(?<!^)(?=[A-Z])` -> `_`, followed by `str.lower()`.
 * Characters are modelled as ASCII: only 'A'..'Z' count as upper-case letters.
 */
module Naming {

  predicate IsUpper(c: char) {
    'A' <= c <= 'Z'
  }

  /** `str.lower()` on one ASCII character. */
  function Lower(c: char): char {
    if IsUpper(c) then (c as int + 32) as char else c
  }

  /** Number of upper-case letters in `s`. */
  function CountUpper(s: string): nat {
    if s == [] then 0 else (if IsUpper(s[0]) then 1 else 0) + CountUpper(s[1..])
  }

  predicate NoUpper(s: string) {
    forall i :: 0 <= i < |s| ==> !IsUpper(s[i])
  }

  /**
   * The substitution on the part of the name after position 0: an underscore is
   * inserted in front of every upper-case letter.
   */
  function InsertUnderscores(t: string): (r: string)
    ensures |r| == |t| + CountUpper(t)
  {
    if t == [] then []
    else
      var rest := InsertUnderscores(t[1..]);
      assert t == [t[0]] + t[1..];
      if IsUpper(t[0]) then ['_', t[0]] + rest else [t[0]] + rest
  }

  /** The regular-expression substitution: the look-behind `(?<!^)` protects position 0. */
  function Substitute(name: string): (r: string)
    ensures |r| == |name| + (if name == [] then 0 else CountUpper(name[1..]))
    ensures name != [] ==> r[0] == name[0]
  {
    if name == [] then [] else [name[0]] + InsertUnderscores(name[1..])
  }

  function LowerAll(s: string): (r: string)
    ensures |r| == |s|
    ensures NoUpper(r)
    ensures forall i :: 0 <= i < |s| ==> r[i] == Lower(s[i])
  {
    seq(|s|, i requires 0 <= i < |s| => Lower(s[i]))
  }

  function CamelToSnake(name: string): (r: string)
    ensures NoUpper(r)
    ensures |r| == |name| + (if name == [] then 0 else CountUpper(name[1..]))
  {
    LowerAll(Substitute(name))
  }

  /** Without upper-case letters the substitution inserts nothing. */
  lemma {:induction false} InsertUnderscoresNoUpper(t: string)
    requires NoUpper(t)
    ensures InsertUnderscores(t) == t
  {
    if t != [] {
      assert NoUpper(t[1..]) by {
        forall i | 0 <= i < |t[1..]| ensures !IsUpper(t[1..][i]) {
          assert t[1..][i] == t[i + 1];
        }
      }
      InsertUnderscoresNoUpper(t[1..]);
    }
  }

  /** A name that is already snake case comes back unchanged. */
  lemma CamelToSnakeOfLowercase(name: string)
    requires NoUpper(name)
    ensures CamelToSnake(name) == name
  {
    if name != [] {
      assert NoUpper(name[1..]) by {
        forall i | 0 <= i < |name[1..]| ensures !IsUpper(name[1..][i]) {
          assert name[1..][i] == name[i + 1];
        }
      }
      InsertUnderscoresNoUpper(name[1..]);
      assert Substitute(name) == name;
    }
    assert LowerAll(name) == name;
  }

  /** Converting twice is the same as converting once. */
  lemma CamelToSnakeIdempotent(name: string)
    ensures CamelToSnake(CamelToSnake(name)) == CamelToSnake(name)
  {
    CamelToSnakeOfLowercase(CamelToSnake(name));
  }

  /** An example: a class name as the registries turn it into a key. */
  lemma CamelToSnakeExample()
    ensures CamelToSnake("TwoOpt") == "two_opt"
  {
    SubstituteExample();
    LowerExample();
  }

  lemma SubstituteExample()
    ensures Substitute("TwoOpt") == "Two_Opt"
  {
    assert InsertUnderscores("Opt") == "_Opt";
    assert InsertUnderscores("woOpt") == "wo_Opt";
  }

  lemma LowerExample()
    ensures LowerAll("Two_Opt") == "two_opt"
  {
    var r := LowerAll("Two_Opt");
    assert Lower('T') == 't' && Lower('O') == 'o';
    assert forall i :: 0 <= i < 7 ==> r[i] == "two_opt"[i];
  }
}
