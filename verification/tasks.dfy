/** Tasks, and the normalisation every task goes through before it is stored. */
module Tasks {
  import opened Int64
  import opened Wrappers

  datatype Task = Task(id: int64, userId: int64, title: string, description: string, status: string,
                       createdAt: int, updatedAt: int)

  const TODO := "todo"
  const IN_PROGRESS := "in_progress"
  const DONE := "done"

  predicate IsValidStatus(status: string) {
    status == TODO || status == IN_PROGRESS || status == DONE
  }

  // ---------- strings.TrimSpace ----------

  /** unicode.IsSpace */
  predicate IsSpace(c: char) {
    || '\t' <= c <= '\r'
    || c == ' '
    || c as int in {0x85, 0xA0, 0x1680, 0x2028, 0x2029, 0x202F, 0x205F, 0x3000}
    || 0x2000 <= c as int <= 0x200A
  }

  function TrimLeft(s: string): string {
    if s != [] && IsSpace(s[0]) then TrimLeft(s[1..]) else s
  }

  function TrimRight(s: string): string {
    if s != [] && IsSpace(s[|s| - 1]) then TrimRight(s[..|s| - 1]) else s
  }

  function TrimSpace(s: string): string {
    TrimRight(TrimLeft(s))
  }

  /** The characters with the property White_Space in the Unicode character database. */
  lemma SpacesAreWhiteSpace(c: char)
    ensures IsSpace(c) <==>
              c as int in {0x09, 0x0A, 0x0B, 0x0C, 0x0D, 0x20, 0x85, 0xA0, 0x1680, 0x2000, 0x2001, 0x2002, 0x2003,
                           0x2004, 0x2005, 0x2006, 0x2007, 0x2008, 0x2009, 0x200A, 0x2028, 0x2029, 0x202F,
                           0x205F, 0x3000}
  {
  }

  predicate IsTrimmed(s: string) {
    s != [] ==> !IsSpace(s[0]) && !IsSpace(s[|s| - 1])
  }

  predicate AllSpace(s: string) {
    forall i :: 0 <= i < |s| ==> IsSpace(s[i])
  }

  lemma {:induction false} TrimLeftMeaning(s: string) returns (cut: nat)
    ensures cut <= |s| && TrimLeft(s) == s[cut..] && AllSpace(s[..cut])
    ensures TrimLeft(s) != [] ==> !IsSpace(TrimLeft(s)[0])
  {
    cut := 0;
    if s != [] && IsSpace(s[0]) {
      cut := TrimLeftMeaning(s[1..]);
      assert s[1..][cut..] == s[cut + 1..];
      assert s[..cut + 1] == [s[0]] + s[1..][..cut];
      cut := cut + 1;
    }
  }

  lemma {:induction false} TrimRightMeaning(s: string) returns (cut: nat)
    ensures cut <= |s| && TrimRight(s) == s[..cut] && AllSpace(s[cut..])
    ensures TrimRight(s) != [] ==> !IsSpace(TrimRight(s)[|TrimRight(s)| - 1])
  {
    cut := |s|;
    if s != [] && IsSpace(s[|s| - 1]) {
      var front := s[..|s| - 1];
      cut := TrimRightMeaning(front);
      assert front[..cut] == s[..cut];
      assert s[cut..] == front[cut..] + [s[|s| - 1]];
    }
  }

  ghost predicate IsTrimOf(t: string, s: string, before: string, after: string) {
    s == before + t + after && AllSpace(before) && AllSpace(after)
  }

  /** Trimming cuts white space off both ends and nothing else. */
  lemma TrimSpaceMeaning(s: string)
    ensures IsTrimmed(TrimSpace(s))
    ensures exists before, after :: IsTrimOf(TrimSpace(s), s, before, after)
  {
    var left := TrimLeft(s);
    var i := TrimLeftMeaning(s);
    var j := TrimRightMeaning(left);
    assert s == s[..i] + left && left == TrimSpace(s) + left[j..];
    assert s == s[..i] + TrimSpace(s) + left[j..];
    assert IsTrimOf(TrimSpace(s), s, s[..i], left[j..]);
    assert TrimSpace(s) != [] ==> TrimSpace(s)[0] == left[0];
  }

  // ---------- Validation ----------

  datatype Error = NotFound | Invalid(field: string) | Failed

  /** validateTask: the task with its texts trimmed and its status filled in, or the field at fault. */
  function Validate(t: Task): Result<Task, Error> {
    var title, description := TrimSpace(t.title), TrimSpace(t.description);
    var status := if t.status == "" then TODO else t.status;
    if title == "" then Failure(Invalid("title"))
    else if t.userId == 0 then Failure(Invalid("user_id"))
    else if !IsValidStatus(status) then Failure(Invalid("status"))
    else Success(t.(title := title, description := description, status := status))
  }

  /** What every stored task looks like. */
  predicate WellFormed(t: Task) {
    t.title != "" && IsTrimmed(t.title) && IsTrimmed(t.description) && IsValidStatus(t.status)
  }

  lemma BlankIsAllSpace(s: string)
    ensures TrimSpace(s) == "" <==> AllSpace(s)
  {
    TrimSpaceMeaning(s);
    var before, after :| IsTrimOf(TrimSpace(s), s, before, after);
    assert TrimSpace(s) != "" ==> s[|before|] == TrimSpace(s)[0];
  }

  lemma ValidateMeaning(t: Task)
    ensures Validate(t).Success? <==>
              TrimSpace(t.title) != "" && t.userId != 0 && (t.status == "" || IsValidStatus(t.status))
    ensures Validate(t).Success? ==>
              var v := Validate(t).value;
              WellFormed(v) && v.id == t.id && v.userId == t.userId
    ensures Validate(t) == Failure(Invalid("title")) <==> AllSpace(t.title)
    ensures Validate(t) == Failure(Invalid("user_id")) <==> !AllSpace(t.title) && t.userId == 0
    ensures Validate(t) == Failure(Invalid("status")) <==>
              !AllSpace(t.title) && t.userId != 0 && t.status != "" && !IsValidStatus(t.status)
    ensures Validate(t).Failure? ==>
              Validate(t).error in {Invalid("title"), Invalid("user_id"), Invalid("status")}
  {
    TrimSpaceMeaning(t.title);
    TrimSpaceMeaning(t.description);
    BlankIsAllSpace(t.title);
  }
}
