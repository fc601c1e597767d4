/**
 * Argument guards (the Throw helpers and OneNoteApplication.ValidateSearch)
 * and name validation: a name is valid for a notebook, section group or
 * section when it is not null or white space and holds none of that kind's
 * invalid characters. A null string is `None`; a guard that throws is a `Failure`.
 */
module Validation {
  import opened Base
  import opened Hierarchy
  import Xml

  /** Notebook.InvalidCharacters: '.' is forbidden, '&' allowed. */
  const NotebookInvalidCharacters: seq<char> := ['\\', '/', '*', '?', '"', '|', '<', '>', ':', '%', '#', '.']

  /** Section.InvalidCharacters: '&' is forbidden, '.' allowed. */
  const SectionInvalidCharacters: seq<char> := ['\\', '/', '*', '?', '"', '|', '<', '>', ':', '%', '#', '&']

  /** `T.InvalidCharacters` for the three kinds that have names on disk; a section group reuses Section's. */
  function InvalidCharacters(k: Kind): seq<char>
    requires k != PageKind
  {
    if k == NotebookKind then NotebookInvalidCharacters else SectionInvalidCharacters
  }

  /** string.IsNullOrWhiteSpace. */
  predicate IsNullOrWhiteSpace(s: Option<string>) {
    s.None? || forall i | 0 <= i < |s.value| :: Xml.IsWhiteSpaceChar(s.value[i])
  }

  /** char.IsLetterOrDigit, for the ASCII letters and digits. */
  predicate IsLetterOrDigit(c: char) {
    ('a' <= c <= 'z') || ('A' <= c <= 'Z') || ('0' <= c <= '9')
  }

  /** IsValidName<T>: not null or white space, and `InvalidCharacters.Any(name.Contains)` is false. */
  predicate IsValidName(k: Kind, name: Option<string>)
    requires k != PageKind
  {
    !IsNullOrWhiteSpace(name) && !(exists c | c in InvalidCharacters(k) :: c in name.value)
  }

  /** Throw.IfNull. */
  function IfNull<T>(argument: Option<T>): (r: Result<()>)
    ensures r.Failure? <==> argument.None?
    ensures r.Failure? ==> r.error == ArgumentNull
  {
    if argument.None? then Failure(ArgumentNull) else Success(())
  }

  /** Throw.IfNullOrWhiteSpace (ArgumentException.ThrowIfNullOrWhiteSpace). */
  function IfNullOrWhiteSpace(s: Option<string>): Result<()> {
    if s.None? then Failure(ArgumentNull)
    else if IsNullOrWhiteSpace(s) then Failure(ArgumentInvalid)
    else Success(())
  }

  /** Throw.IfInvalidSearch: null, then empty or white space, then a first character that is not a letter or digit. */
  function IfInvalidSearch(search: Option<string>): Result<()> {
    var _ :- IfNull(search);
    var _ :- IfNullOrWhiteSpace(search);
    if !IsLetterOrDigit(search.value[0]) then Failure(ArgumentInvalid) else Success(())
  }

  /** Throw.IfInvalidName<T>. */
  function IfInvalidName(k: Kind, name: Option<string>): (r: Result<()>)
    requires k != PageKind
    ensures r.Failure? <==> !IsValidName(k, name)
    ensures r.Failure? ==> r.error == ArgumentInvalid
  {
    if !IsValidName(k, name) then Failure(ArgumentInvalid) else Success(())
  }

  /** Throw.IfNullSection: throws ArgumentNull whatever it is given. */
  function IfNullSection<T>(section: Option<T>): Result<()> {
    Failure(ArgumentNull)
  }

  // ---------------------------------------------------------------------
  // Properties.

  /**
   * A search string passes exactly when it is non-null, non-empty and starts
   * with a letter or digit: the white-space check only decides which
   * exception a rejected string raises. Null raises ArgumentNull, any other
   * rejection ArgumentInvalid.
   */
  lemma SearchRules(search: Option<string>)
    ensures IfInvalidSearch(search).Success? <==>
              search.Some? && |search.value| > 0 && IsLetterOrDigit(search.value[0])
    ensures search.None? ==> IfInvalidSearch(search) == Failure(ArgumentNull)
    ensures search.Some? && IfInvalidSearch(search).Failure? ==> IfInvalidSearch(search) == Failure(ArgumentInvalid)
  {
    if search.Some? && |search.value| > 0 && IsLetterOrDigit(search.value[0]) {
      assert !Xml.IsWhiteSpaceChar(search.value[0]);
    }
  }

  /** Valid names, character by character: some character is not white space and none is forbidden for the kind. */
  lemma ValidNameByCharacters(k: Kind, name: string)
    requires k != PageKind
    ensures IsValidName(k, Some(name)) <==>
              (exists i | 0 <= i < |name| :: !Xml.IsWhiteSpaceChar(name[i])) &&
              (forall i | 0 <= i < |name| :: name[i] !in InvalidCharacters(k))
  {
    if forall i | 0 <= i < |name| :: name[i] !in InvalidCharacters(k) {
      assert forall c | c in name :: c !in InvalidCharacters(k);
    }
  }

  /**
   * The three kinds differ only in their character lists: a section group
   * accepts exactly the names a section does, and a notebook differs from
   * them on '.' and '&' alone.
   */
  lemma NameRulesByKind(name: string)
    ensures IsValidName(SectionGroupKind, Some(name)) == IsValidName(SectionKind, Some(name))
    ensures '.' !in name && '&' !in name ==>
              IsValidName(NotebookKind, Some(name)) == IsValidName(SectionKind, Some(name))
    ensures IsValidName(SectionKind, Some(name)) && '.' in name ==> !IsValidName(NotebookKind, Some(name))
    ensures IsValidName(NotebookKind, Some(name)) && '&' in name ==> !IsValidName(SectionKind, Some(name))
  {
    var n, s := NotebookInvalidCharacters, SectionInvalidCharacters;
    assert '.' in n && '&' in s;
    if '.' !in name && '&' !in name {
      assert forall c | c in n && c != '.' :: c in s;
      assert forall c | c in s && c != '&' :: c in n;
    }
  }

  /** Null, empty and white-space names are invalid for every kind. */
  lemma BlankNamesInvalid(k: Kind, name: Option<string>)
    requires k != PageKind
    requires name.None? || forall i | 0 <= i < |name.value| :: name.value[i] == ' '
    ensures !IsValidName(k, name)
  {
  }

  /**
   * IfNullSection throws even for a section that is there, where IfNull
   * passes it; both throw ArgumentNull for a missing one.
   */
  lemma NullSectionGuard<T>(section: Option<T>)
    ensures IfNullSection(section) == Failure(ArgumentNull)
    ensures section.None? ==> IfNull(section) == IfNullSection(section)
    ensures section.Some? ==> IfNull(section).Success? && IfNullSection(section).Failure?
  {
  }
}
