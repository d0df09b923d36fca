/** The string rules the schema editor uses to recognise foreign keys:
    the `_id` suffix test, `String.prototype.replace` with a string pattern
    (first occurrence only), `capitalize` and `toLowerCase`.
    Case mapping is modelled on ASCII letters only. */
module Text {
  import opened Seqs

  /** The suffix that marks a field name as a foreign key. */
  const KeySuffix: string := "_id"

  /** `String.prototype.endsWith`. */
  predicate EndsWith(s: string, suffix: string) {
    |suffix| <= |s| && s[|s| - |suffix|..] == suffix
  }

  /** `pat` occurs in `s` starting at position `i`. */
  predicate OccursAt(s: string, pat: string, i: nat) {
    i + |pat| <= |s| && s[i..i + |pat|] == pat
  }

  /** `String.prototype.indexOf(pat, from)`; None stands for -1. */
  function IndexOfFrom(s: string, pat: string, from: nat): (r: Option<nat>)
    ensures r.Some? ==> from <= r.value && OccursAt(s, pat, r.value)
    ensures r.Some? ==> forall j: nat :: from <= j < r.value ==> !OccursAt(s, pat, j)
    ensures r.None? ==> forall j: nat :: from <= j ==> !OccursAt(s, pat, j)
    decreases |s| - from
  {
    if from + |pat| > |s| then None
    else if s[from..from + |pat|] == pat then Some(from)
    else IndexOfFrom(s, pat, from + 1)
  }

  /** `s.replace(pat, rep)` for a string pattern: only the FIRST occurrence is replaced. */
  function ReplaceFirst(s: string, pat: string, rep: string): (r: string)
    ensures (forall j: nat :: !OccursAt(s, pat, j)) ==> r == s
  {
    match IndexOfFrom(s, pat, 0)
    case None => s
    case Some(i) => s[..i] + rep + s[i + |pat|..]
  }

  /** Only the first occurrence is replaced: the text before it and after it stays. */
  lemma ReplaceFirstOccurrence(s: string, pat: string, rep: string, i: nat)
    requires OccursAt(s, pat, i)
    requires forall j: nat :: j < i ==> !OccursAt(s, pat, j)
    ensures ReplaceFirst(s, pat, rep) == s[..i] + rep + s[i + |pat|..]
  {
    var k := IndexOfFrom(s, pat, 0);
    assert k == Some(i);
  }

  /** ASCII `toUpperCase` of one character. */
  function UpperChar(c: char): (r: char)
    ensures 'a' <= c <= 'z' ==> 'A' <= r <= 'Z' && LowerChar(r) == c
    ensures !('a' <= c <= 'z') ==> r == c
  {
    if 'a' <= c <= 'z' then (c as int - 32) as char else c
  }

  /** ASCII `toLowerCase` of one character. */
  function LowerChar(c: char): (r: char)
    ensures 'A' <= c <= 'Z' ==> 'a' <= r <= 'z'
    ensures !('A' <= c <= 'Z') ==> r == c
  {
    if 'A' <= c <= 'Z' then (c as int + 32) as char else c
  }

  /** First character upper-cased, the rest kept (`charAt(0).toUpperCase() + substr(1)`),
      as the plugin writes it inline; the editor's `capitalize` helper is
      assumed to do the same. */
  function Capitalize(s: string): (r: string)
    ensures |r| == |s|
    ensures |s| > 0 ==> r[0] == UpperChar(s[0]) && r[1..] == s[1..]
  {
    if |s| == 0 then s else [UpperChar(s[0])] + s[1..]
  }

  /** `String.prototype.toLowerCase`. */
  function ToLower(s: string): (r: string)
    ensures |r| == |s|
    ensures forall i :: 0 <= i < |s| ==> r[i] == LowerChar(s[i])
  {
    seq(|s|, i requires 0 <= i < |s| => LowerChar(s[i]))
  }

  /** The foreign-key test applied to field names. */
  predicate IsForeignKeyName(name: string) {
    EndsWith(name, KeySuffix)
  }

  /** The table name a field name points at: first `_id` removed, then capitalised. */
  function ImpliedTableName(fieldName: string): (r: string) {
    Capitalize(ReplaceFirst(fieldName, KeySuffix, ""))
  }

  /** The field name that refers to a table, as the table-rename rule builds it. */
  function ForeignKeyFor(tableName: string): (r: string)
    ensures |r| == |tableName| + |KeySuffix|
    ensures r[..|tableName|] == ToLower(tableName) && r[|tableName|..] == KeySuffix
  {
    ToLower(tableName) + KeySuffix
  }

  lemma ForeignKeyForIsForeignKey(tableName: string)
    ensures IsForeignKeyName(ForeignKeyFor(tableName))
  {
    var s := ForeignKeyFor(tableName);
    assert s[|s| - 3..] == KeySuffix;
  }

  /** Stripping the first `_id` from `prefix + "_id"` gives back `prefix`
      when `prefix` itself contains no `_id`: the suffix cannot combine with
      the end of the prefix into an earlier occurrence. */
  lemma StripKeySuffix(prefix: string)
    requires forall j: nat :: !OccursAt(prefix, KeySuffix, j)
    ensures ReplaceFirst(prefix + KeySuffix, KeySuffix, "") == prefix
  {
    var s := prefix + KeySuffix;
    var n := |prefix|;
    assert OccursAt(s, KeySuffix, n) by {
      assert s[n..n + 3] == KeySuffix;
    }
    forall j: nat | j < n
      ensures !OccursAt(s, KeySuffix, j)
    {
      if j + 3 <= n {
        assert s[j..j + 3] == prefix[j..j + 3];
        assert !OccursAt(prefix, KeySuffix, j);
      } else if j == n - 1 {
        assert s[j..j + 3][1] == s[n] == '_' != KeySuffix[1];
      } else {
        assert j == n - 2;
        assert s[j..j + 3][2] == s[n] == '_' != KeySuffix[2];
      }
    }
    var r := IndexOfFrom(s, KeySuffix, 0);
    assert r == Some(n);
    assert s[..n] == prefix;
    assert s[n + 3..] == [];
  }

  /** A name without an underscore contains no `_id`. */
  lemma NoUnderscoreNoKeySuffix(s: string)
    requires forall i :: 0 <= i < |s| ==> s[i] != '_'
    ensures forall j: nat :: !OccursAt(s, KeySuffix, j)
  {
    forall j: nat
      ensures !OccursAt(s, KeySuffix, j)
    {
      if j + |KeySuffix| <= |s| {
        assert s[j..j + |KeySuffix|][0] == s[j];
      }
    }
  }

  /** A foreign-key name built from a name without underscores implies that name, capitalised. */
  lemma PlainKeyImpliesTable(prefix: string)
    requires forall i :: 0 <= i < |prefix| ==> prefix[i] != '_'
    ensures ImpliedTableName(prefix + KeySuffix) == Capitalize(prefix)
  {
    NoUnderscoreNoKeySuffix(prefix);
    StripKeySuffix(prefix);
  }

  /** The two naming rules meet: the table named by the field-rename rule for
      the key built by the table-rename rule is the capitalised lower-case name. */
  lemma ImpliedNameOfForeignKey(tableName: string)
    requires forall j: nat :: !OccursAt(ToLower(tableName), KeySuffix, j)
    ensures ImpliedTableName(ForeignKeyFor(tableName)) == Capitalize(ToLower(tableName))
  {
    StripKeySuffix(ToLower(tableName));
  }
}
