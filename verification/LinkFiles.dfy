/** The link store's text layer: which ids may name a file, and how the text of
    a link file becomes a parent id. */
module LinkFiles {
  import opened Text
  import opened TextLaws

  const READ_LIMIT := 256
  const MAX_ID_LENGTH := 128

  predicate IsAlnum(c: char) {
    'A' <= c <= 'Z' || 'a' <= c <= 'z' || '0' <= c <= '9'
  }

  predicate ValidId(s: string) {
    && 0 < |s| <= MAX_ID_LENGTH
    && IsAlnum(s[0])
    && (forall i :: 0 <= i < |s| ==> IsAlnum(s[i]) || s[i] in "._:-")
    && (forall i {:trigger s[i]} :: 0 <= i < |s| - 1 ==> !(s[i] == '.' && s[i + 1] == '.'))
  }

  /** What read_state returns for a file holding `body`. */
  function ReadBack(body: string): string {
    if |body| <= READ_LIMIT then body else body[..READ_LIMIT]
  }

  /** Whom `cid` points at, if anyone. A file that cannot be read is not in `files`. */
  function ParentIn(files: map<string, string>, cid: string): Option<string> {
    if cid !in files then None
    else
      var parent := Strip(ReadBack(files[cid]));
      if ValidId(parent) && parent != cid then Some(parent) else None
  }

  /** The links the readers see. */
  function LinksOf(files: map<string, string>): (m: map<string, string>)
    ensures forall c :: c in m ==> ParentIn(files, c) == Some(m[c])
    ensures forall c :: c !in m ==> ParentIn(files, c) == None
    ensures forall c :: c in m ==> m[c] != c && ValidId(m[c])
  {
    map c | c in files && ParentIn(files, c).Some? :: ParentIn(files, c).value
  }

  /** A valid id comes back unchanged from its file: it fits the read and has no
      space to strip. */
  lemma ValidIdSurvives(id: string)
    requires ValidId(id)
    ensures Strip(ReadBack(id)) == id
  {
    assert !IsSpace(id[0]) && !IsSpace(id[|id| - 1]);
  }

  /** Replacing a link file changes exactly that link, whatever was in it. */
  lemma WriteIsOneLink(files: map<string, string>, child: string, parent: string)
    requires ValidId(parent) && child != parent
    ensures LinksOf(files[child := parent]) == LinksOf(files)[child := parent]
  {
    ValidIdSurvives(parent);
    var a, b := LinksOf(files[child := parent]), LinksOf(files)[child := parent];
    forall c ensures (c in a <==> c in b) && (c in a ==> a[c] == b[c]) {
      if c != child { assert ParentIn(files[child := parent], c) == ParentIn(files, c); }
      assert c in a <==> ParentIn(files[child := parent], c).Some?;
    }
  }

  // ---- Ids and link files as they are written --------------------------------------

  predicate IsIdChar(c: char) {
    var n := c as int;
    48 <= n <= 57 || 65 <= n <= 90 || 97 <= n <= 122 || n == 46 || n == 95 || n == 58 || n == 45
  }

  lemma TwoDots(s: string, i: nat)
    ensures OccursAt(s, "..", i) <==> i + 1 < |s| && s[i] == '.' && s[i + 1] == '.'
  {
    if i + 2 <= |s| { assert s[i..i + 2] == [s[i], s[i + 1]]; }
  }

  lemma NoTwoDotsIff(s: string)
    ensures Contains(s, "..") <==> exists i {:trigger s[i]} :: 0 <= i < |s| - 1 && s[i] == '.' && s[i + 1] == '.'
  {
    ContainsIff(s, "..");
    if i: nat :| OccursAt(s, "..", i) {
      TwoDots(s, i);
      assert s[i] == '.';
    }
    if i :| 0 <= i < |s| - 1 && s[i] == '.' && s[i + 1] == '.' { TwoDots(s, i); }
  }

  lemma IdCharIs(c: char)
    ensures IsIdChar(c) <==> IsAlnum(c) || c in "._:-"
    ensures IsAlnum(c) <==> IsIdChar(c) && c !in ".:_-"
  {
  }

  /** An id: a letter or digit, then at most 127 letters, digits, `.`, `_`, `:` or
      `-`, and nowhere two dots in a row. */
  lemma ValidIdIff(s: string)
    ensures ValidId(s) <==>
            && 1 <= |s| <= 128
            && (forall i :: 0 <= i < |s| ==> IsIdChar(s[i]))
            && IsIdChar(s[0]) && s[0] !in ".:_-"
            && !Contains(s, "..")
  {
    NoTwoDotsIff(s);
    forall i | 0 <= i < |s| ensures IsIdChar(s[i]) <==> IsAlnum(s[i]) || s[i] in "._:-" { IdCharIs(s[i]); }
    if s != "" { IdCharIs(s[0]); }
  }

  /** The first 256 characters of a file, or all of them. */
  function Head(body: string): string {
    body[..if |body| < 256 then |body| else 256]
  }

  /** A child is linked to `parent` iff its file's first 256 characters are that
      valid id, white space aside, and it is not the child's own. */
  lemma LinkIsRead(files: map<string, string>, cid: string, parent: string)
    ensures ParentIn(files, cid) == Some(parent) <==>
            && cid in files && ValidId(parent) && parent != cid
            && exists a, b :: IsBlank(a) && IsBlank(b) && Head(files[cid]) == a + parent + b
  {
    if cid in files {
      assert ReadBack(files[cid]) == Head(files[cid]);
      StripIff(Head(files[cid]), parent);
      if ValidId(parent) { IdIsTrim(parent); }
    }
  }

  lemma IdIsTrim(id: string)
    requires ValidId(id)
    ensures IsTrim(id)
  {
    assert !IsSpace(id[0]) && !IsSpace(id[|id| - 1]);
  }
}
