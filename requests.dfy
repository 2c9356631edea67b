/**
 * What the page sends to the server: the create body built from the form,
 * guarded by the non-blank title check, and the update body for a
 * completion toggle.
 */
module Requests {
  import opened Records

  /** The code points JavaScript's `String.prototype.trim` strips: WhiteSpace and LineTerminator. */
  predicate IsJsWhitespace(c: char) {
    var n := c as int;
    n == 0x09 || n == 0x0A || n == 0x0B || n == 0x0C || n == 0x0D || n == 0x20 ||
    n == 0xA0 || n == 0x1680 || (0x2000 <= n <= 0x200A) || n == 0x2028 || n == 0x2029 ||
    n == 0x202F || n == 0x205F || n == 0x3000 || n == 0xFEFF
  }

  predicate AllWhitespace(s: string) {
    forall i :: 0 <= i < |s| ==> IsJsWhitespace(s[i])
  }

  /** `s` without its leading whitespace. */
  function TrimStart(s: string): (r: string)
    ensures |r| <= |s| && r == s[|s| - |r|..]
    ensures AllWhitespace(s[..|s| - |r|])
    ensures r == [] || !IsJsWhitespace(r[0])
  {
    if |s| > 0 && IsJsWhitespace(s[0]) then
      var r := TrimStart(s[1..]);
      assert s[..|s| - |r|] == [s[0]] + s[1..][..|s| - 1 - |r|];
      r
    else s
  }

  /** `s` without its trailing whitespace. */
  function TrimEnd(s: string): (r: string)
    ensures |r| <= |s| && r == s[..|r|]
    ensures AllWhitespace(s[|r|..])
    ensures r == [] || !IsJsWhitespace(r[|r| - 1])
  {
    if |s| > 0 && IsJsWhitespace(s[|s| - 1]) then
      var r := TrimEnd(s[..|s| - 1]);
      assert s[|r|..] == s[..|s| - 1][|r|..] + [s[|s| - 1]];
      r
    else s
  }

  /**
   * `s.trim()`: the result neither starts nor ends with whitespace, and a
   * string that already does neither is returned as it is.
   */
  function Trim(s: string): (r: string)
    ensures |r| <= |s|
    ensures r == [] || (!IsJsWhitespace(r[0]) && !IsJsWhitespace(r[|r| - 1]))
    ensures |s| > 0 && !IsJsWhitespace(s[0]) && !IsJsWhitespace(s[|s| - 1]) ==> r == s
  {
    TrimEnd(TrimStart(s))
  }

  /** `TrimStart(s)` is `s` from the first non-whitespace position on; everything before it is whitespace. */
  lemma TrimStartAt(s: string)
    ensures var t := TrimStart(s);
      (forall k :: 0 <= k < |t| ==> t[k] == s[|s| - |t| + k]) &&
      (forall k :: 0 <= k < |s| - |t| ==> IsJsWhitespace(s[k]))
  {
    var t := TrimStart(s);
    var a := |s| - |t|;
    assert t == s[a..];
    forall k | 0 <= k < a ensures IsJsWhitespace(s[k]) {
      assert s[..a][k] == s[k];
    }
  }

  /** `TrimEnd(t)` is `t` up to the last non-whitespace position; everything after it is whitespace. */
  lemma TrimEndAt(t: string)
    ensures var r := TrimEnd(t);
      (forall k :: 0 <= k < |r| ==> r[k] == t[k]) &&
      (forall k :: |r| <= k < |t| ==> IsJsWhitespace(t[k]))
  {
    var r := TrimEnd(t);
    assert r == t[..|r|];
    forall k | |r| <= k < |t| ensures IsJsWhitespace(t[k]) {
      assert t[|r|..][k - |r|] == t[k];
    }
  }

  /**
   * `Trim(s)` is `s` with exactly its leading and trailing whitespace
   * removed: the run of `s` that starts at the first non-whitespace position,
   * with only whitespace before and after it.
   */
  lemma TrimIsInterior(s: string)
    ensures var a, r := |s| - |TrimStart(s)|, Trim(s);
      a + |r| <= |s| &&
      (forall k :: 0 <= k < |r| ==> r[k] == s[a + k]) &&
      (forall k :: 0 <= k < a ==> IsJsWhitespace(s[k])) &&
      (forall k :: a + |r| <= k < |s| ==> IsJsWhitespace(s[k]))
  {
    var t := TrimStart(s);
    TrimStartAt(s);
    TrimEndAt(t);
  }

  /** A title trims to the empty string exactly when it is all whitespace. */
  lemma TrimEmptyIff(s: string)
    ensures Trim(s) == [] <==> AllWhitespace(s)
  {
    var a := TrimStart(s);
    assert a[0..] == a;
    if Trim(s) == [] {
      assert a == [];
      assert s[..|s|] == s;
    } else {
      assert a != [];
      assert !AllWhitespace(s) by {
        assert !IsJsWhitespace(s[|s| - |a|]);
      }
    }
  }

  /**
   * `addTodo`'s request: nothing when the title is blank; otherwise a todo
   * with an empty id, the title as typed (not trimmed), not completed, and the
   * selected user, or `null` when none is selected.
   */
  function AddTodoRequest(newTodoTitle: string, selectedUser: string): (r: Option<Todo>)
    ensures r.None? <==> AllWhitespace(newTodoTitle)
    ensures r.Some? ==> r.value.id == "" && r.value.title == newTodoTitle && !r.value.completed
    ensures r.Some? ==> (r.value.userId == None <==> selectedUser == "")
    ensures r.Some? && selectedUser != "" ==> r.value.userId == Some(selectedUser)
  {
    TrimEmptyIff(newTodoTitle);
    if Trim(newTodoTitle) == [] then None
    else Some(Todo("", newTodoTitle, false, if selectedUser == "" then None else Some(selectedUser)))
  }

  /** `toggleTodoCompletion`'s request: the todo with only its completion flipped. */
  function Toggled(t: Todo): (r: Todo)
    ensures r.id == t.id && r.title == t.title && r.userId == t.userId
    ensures r.completed != t.completed
  {
    t.(completed := !t.completed)
  }
}
