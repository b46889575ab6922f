// The lines of a batch file as innxmit reads them (backends/innxmit.c), and as it puts
// them back.
module BatchLine {
  import opened StreamRing
  import opened Innxmit
  import opened Wrappers

  const MAXLEN_MSGID := 250

  // The line begins with the directory of the articles, `dir` being innconf->patharticles.
  predicate Prefixed(line: string, dir: string) {
    line != "" && line[0] == '/' && |line| > |dir| && line[..|dir|] == dir && line[|dir|] == '/'
  }

  predicate Bracketed(id: string) {
    id != "" && id[0] == '<' && id[|id| - 1] == '>'
  }

  // What a line says: the name of a file and, after the first blank, a Message-ID.
  function ReadLine(raw: string, dir: string): (i: Item)
    ensures i.Ignored? || i.Article?
  {
    if raw == "" then Ignored(raw) else
      var line := if Prefixed(raw, dir) then raw[|dir| + 1..] else raw;
      var blank := Find(line, ' ', 0);
      var fname := line[..blank];
      if blank == |line| then
        if fname == "" then Ignored(raw) else Article(raw, fname, None)
      else
        var id := line[blank + 1..];
        if !Bracketed(id) || fname == "" || |id| > MAXLEN_MSGID then Ignored(raw)
        else Article(raw, fname, Some(id))
  }

  // What the main loop relies on.
  lemma ReadLineOk(raw: string, dir: string)
    ensures var i := ReadLine(raw, dir);
      ItemOk(i) && (i.Article? ==> ' ' !in i.fname && i.raw == raw)
  {
  }

  // A file name that could not be opened goes back without an id, and is read again,
  // unless its line seems to begin with the directory.
  lemma NameReread(fname: string, dir: string)
    requires fname != "" && ' ' !in fname
    ensures var line := CurrentLine(fname, None);
      ReadLine(line, dir) == Article(line, fname, None) <==> !Prefixed(line, dir)
  {
    assert fname[..|fname|] == fname;
  }

  // An article that is put back is read again as the same one exactly when its id, which
  // may come from its header, is in angle brackets and not too long; and its line must not
  // seem to begin with the directory.
  lemma LineReread(fname: string, id: string, dir: string)
    requires fname != "" && ' ' !in fname
    ensures var line := Line(fname, id);
      && CurrentLine(fname, Some(id)) == line
      && (ReadLine(line, dir) == Article(line, fname, Some(id)) <==>
            !Prefixed(line, dir) && Bracketed(id) && |id| <= MAXLEN_MSGID)
      && (!Prefixed(line, dir) && !(Bracketed(id) && |id| <= MAXLEN_MSGID) ==> ReadLine(line, dir) == Ignored(line))
  {
    var line := Line(fname, id);
    FindIs(line, ' ', 0, |fname|);
    assert line[..|fname|] == fname && line[|fname| + 1..] == id;
    if Prefixed(line, dir) {
      var i := ReadLine(line, dir);
      if i.Article? && i.id == Some(id) {
        assert |i.fname| + 1 + |id| < |line|;
      }
    }
  }

  // What was read without an id of its own, or with one, can be put back: only the
  // directory can stand in the way.
  lemma ItemReread(raw: string, dir: string)
    ensures var i := ReadLine(raw, dir);
      i.Article? ==>
        var line := CurrentLine(i.fname, i.id);
        ReadLine(line, dir) == Article(line, i.fname, i.id) <==> !Prefixed(line, dir)
  {
    var i := ReadLine(raw, dir);
    if i.Article? {
      if i.id.Some? {
        LineReread(i.fname, i.id.value, dir);
      } else {
        NameReread(i.fname, dir);
      }
    }
  }

  // An article whose header has an id without angle brackets is put back in a line that
  // the next run ignores.
  lemma LineLost()
    ensures var i := ReadLine("a/1", "/news");
      i == Article("a/1", "a/1", None) && ReadLine(Line(i.fname, "x@y"), "/news") == Ignored("a/1 x@y")
  {
    NameReread("a/1", "/news");
    assert Line("a/1", "x@y") == "a/1 x@y";
    LineReread("a/1", "x@y", "/news");
  }
}
