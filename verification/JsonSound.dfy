/** What every accepted text must hold, whatever else it holds. */
module JsonSound {
  import opened Options
  import opened JsonText
  import opened JsonGrammar
  import opened JsonLayout

  /** From i up to j there are blanks only. */
  predicate SpacesIn(s: string, i: nat, j: nat) { i <= j <= |s| && forall k :: i <= k < j ==> Space(s[k]) }

  lemma BlanksOnly(s: string, i: nat)
    requires GoBlank(s, i).Some?
    ensures SpacesIn(s, i, GoBlank(s, i).value) && !Space(s[GoBlank(s, i).value])
  {
    GoBlankIff(s, i, GoBlank(s, i).value);
    hide GoBlank;
  }

  /** The root is an object: a document starts with a brace, behind blanks only. */
  lemma RootIsObject(s: string)
    requires Document(s).Some?
    ensures exists p: nat :: SpacesIn(s, 0, p) && p < |s| && s[p] == '{'
  {
    hide Members, GoBlank;
    BlanksOnly(s, 0);
    assert SpacesIn(s, 0, GoBlank(s, 0).value);
  }

  /** A block ends in the bracket that belongs to its beginning. */
  lemma {:induction false} BlockClosesItself(s: string, i: nat, arr: bool)
    requires Members(s, i, arr).Some?
    ensures var e := Members(s, i, arr).value.end; e > 0 && s[e - 1] == if arr then ']' else '}'
    decreases |s| - i
  {
    hide GoBlank, HeadAt, Member;
    match Look(s, i, arr)
    case Fail =>
    case End(_) =>
    case Comma(j) => BlockClosesItself(s, j, arr);
    case Put(_, j) => BlockClosesItself(s, j, arr);
    case Open(_, a, j) => BlockClosesItself(s, Members(s, j, a).value.end, arr);
  }

  /** In an object a member has a quoted name, then a colon between blanks, then its value. */
  lemma MembersAreNamed(s: string, p: nat)
    requires p < |s| && HeadAt(s, p, false).Some?
    ensures var h := HeadAt(s, p, false).value;
      && s[p] == '"' && Decode(s, p + 1).Some? && !Space(s[h.at])
      && exists q: nat ::
        SpacesIn(s, Decode(s, p + 1).value.end, q) && q < h.at && s[q] == ':' && SpacesIn(s, q + 1, h.at)
  {
    hide GoBlank, Decode;
    var e := Decode(s, p + 1).value.end;
    BlanksOnly(s, e);
    var q := GoBlank(s, e).value;
    BlanksOnly(s, q + 1);
    assert SpacesIn(s, e, q) && s[q] == ':';
  }
}
