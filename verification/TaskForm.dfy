/**
 * The new-task form: four input fields and the submit handler, which adds a
 * task when the title is not blank and then clears the fields.
 */
module TaskForm {
  import opened Types
  import S = Store
  import StoreHook

  /**
   * The characters `String.prototype.trim` removes: the white space
   * (tab, vertical tab, form feed, space separators, byte order mark) and
   * line terminators of ECMAScript.
   */
  predicate IsWhitespace(c: char) {
    || c == '\t' || c == '\U{B}' || c == '\U{C}' || c == ' ' || c == '\U{A0}' || c == '\U{FEFF}'
    || c == '\n' || c == '\r' || c == '\U{2028}' || c == '\U{2029}'
    || c == '\U{1680}' || ('\U{2000}' <= c <= '\U{200A}') || c == '\U{202F}' || c == '\U{205F}' || c == '\U{3000}'
  }

  predicate Blank(s: string) {
    forall i :: 0 <= i < |s| ==> IsWhitespace(s[i])
  }

  /** Drops the leading white space: what is dropped is all white space, and what is left does not start with any. */
  function TrimStart(s: string): (r: string)
    ensures |r| <= |s| && r == s[|s| - |r|..]
    ensures Blank(s[..|s| - |r|])
    ensures r == [] || !IsWhitespace(r[0])
  {
    if s != [] && IsWhitespace(s[0]) then
      var r := TrimStart(s[1..]);
      assert Blank(s[..|s| - |r|]) by {
        forall i | 0 <= i < |s| - |r| ensures IsWhitespace(s[i]) {
          if i > 0 {
            assert s[i] == s[1..][..|s| - 1 - |r|][i - 1];
          }
        }
      }
      r
    else s
  }

  /** Drops the trailing white space. */
  function TrimEnd(s: string): (r: string)
    ensures |r| <= |s| && r == s[..|r|]
    ensures Blank(s[|r|..])
    ensures r == [] || !IsWhitespace(r[|r| - 1])
  {
    if s != [] && IsWhitespace(s[|s| - 1]) then
      var r := TrimEnd(s[..|s| - 1]);
      assert s[|r|..] == s[..|s| - 1][|r|..] + [s[|s| - 1]];
      r
    else s
  }

  /** `s.trim()`. */
  function Trim(s: string): string {
    TrimEnd(TrimStart(s))
  }

  /** A title trims to nothing exactly when every character of it is white space. */
  lemma TrimEmptyIffBlank(s: string)
    ensures Trim(s) == [] <==> Blank(s)
  {
    var t := TrimStart(s);
    assert s == s[..|s| - |t|] + t;
  }

  class Form {
    const store: StoreHook.StoreObject
    var title: string
    var description: string
    var priority: TaskPriority
    var category: TaskCategory

    constructor (store: StoreHook.StoreObject)
      ensures this.store == store
      ensures title == "" && description == "" && priority == Medium && category == Work
    {
      this.store := store;
      title := "";
      description := "";
      priority := Medium;
      category := Work;
    }

    method SetTitle(value: string)
      modifies this
      ensures title == value
      ensures description == old(description) && priority == old(priority) && category == old(category)
    {
      title := value;
    }

    method SetDescription(value: string)
      modifies this
      ensures description == value
      ensures title == old(title) && priority == old(priority) && category == old(category)
    {
      description := value;
    }

    method SetPriority(value: TaskPriority)
      modifies this
      ensures priority == value
      ensures title == old(title) && description == old(description) && category == old(category)
    {
      priority := value;
    }

    method SetCategory(value: TaskCategory)
      modifies this
      ensures category == value
      ensures title == old(title) && description == old(description) && priority == old(priority)
    {
      category := value;
    }

    /**
     * The submit handler, with the id and time that `addTask` would draw.
     * A blank title does nothing; otherwise one open task is added with the
     * title exactly as typed, and the fields go back to their first values.
     */
    method HandleSubmit(id: string, now: int)
      modifies this, store
      ensures Blank(old(title)) ==> unchanged(this) && store.state == old(store.state)
      ensures !Blank(old(title)) ==>
        store.state == S.AddTask(old(store.state),
          S.NewTask(old(title), old(description), false, old(priority), old(category), None), id, now)
      ensures !Blank(old(title)) ==>
        title == "" && description == "" && priority == Medium && category == Work
    {
      TrimEmptyIffBlank(title);
      if Trim(title) == [] {
        return;
      }
      store.AddTask(S.NewTask(title, description, false, priority, category, None), id, now);
      title := "";
      description := "";
      priority := Medium;
      category := Work;
    }
  }
}
