/** Commands to paste into a shell, and a reader that quotes as section 2.2 of the POSIX Shell Command Language does. */
module Shell {
  import opened Wrappers

  // ----- the printer

  predicate Safe(c: char) {
    'A' <= c <= 'Z' || 'a' <= c <= 'z' || '0' <= c <= '9' || c == '.' || c == '_' || c == ':' || c == '/' || c == '-'
  }

  predicate AllSafe(s: string) {
    forall i | 0 <= i < |s| :: Safe(s[i])
  }

  /** Every single quote leaves the quoting, is written inside double quotes, and enters it again. */
  function Replaced(s: string): string {
    if s == "" then "" else (if s[0] == '\'' then "'\"'\"'" else [s[0]]) + Replaced(s[1..])
  }

  function ShellQuote(s: string): string {
    if s != "" && AllSafe(s) then s else "'" + Replaced(s) + "'"
  }

  datatype Entry = Entry(source: string, sessionId: Option<string>, project: Option<string>, locations: seq<string>)

  function Given(value: Option<string>): Option<string> {
    if value == Some("") then None else value
  }

  function Resume(source: string, id: string): Option<string> {
    if source == "claude" then Some("claude --resume " + ShellQuote(id))
    else if source == "codex" then Some("codex resume " + ShellQuote(id))
    else if source == "cursor" then Some("cursor-agent --resume=" + ShellQuote(id))
    else if source == "grok" then Some("grok resume " + ShellQuote(id))
    else if source == "muse" then Some("muse resume " + ShellQuote(id))
    else None
  }

  function ResumeCommand(e: Entry): Option<string> {
    if Given(e.sessionId).None? then None
    else if e.locations != [] && "local" !in e.locations then None
    else
      var resume := Resume(e.source, e.sessionId.value);
      if resume.Some? && Given(e.project).Some? then Some("cd " + ShellQuote(e.project.value) + " && " + resume.value) else resume
  }

  // ----- the reader

  datatype Token = Word(text: string) | AndIf

  /** Characters a shell gives a meaning of its own when they stand unquoted; of those only `&&` is read here. */
  predicate Special(c: char) {
    c in {'|', '&', ';', '<', '>', '(', ')', '$', '`', '\n', '*', '?', '[', ']', '~', '!', '{', '}', '#', '%', '\0'}
  }

  function Finished(word: Option<string>): seq<Token> {
    if word.None? then [] else [Word(word.value)]
  }

  function Before(tokens: seq<Token>, rest: Option<seq<Token>>): Option<seq<Token>> {
    if rest.None? then None else Some(tokens + rest.value)
  }

  function SoFar(word: Option<string>): string {
    if word.None? then "" else word.value
  }

  /** Read unquoted text; `word` is the word begun, if one is. */
  function Read(t: string, word: Option<string>): Option<seq<Token>>
    decreases |t|, 0
  {
    if t == "" then Some(Finished(word))
    else if t[0] == ' ' || t[0] == '\t' then Before(Finished(word), Read(t[1..], None))
    else if t[0] == '\'' then ReadSingle(t[1..], SoFar(word))
    else if t[0] == '"' then ReadDouble(t[1..], SoFar(word))
    else if t[0] == '\\' then
      if |t| < 2 || t[1] == '\0' then None
      else if t[1] == '\n' then Read(t[2..], word)
      else Read(t[2..], Some(SoFar(word) + [t[1]]))
    else if t[0] == '&' && |t| >= 2 && t[1] == '&' then Before(Finished(word) + [AndIf], Read(t[2..], None))
    else if Special(t[0]) then None
    else Read(t[1..], Some(SoFar(word) + [t[0]]))
  }

  /** Inside single quotes every character is itself. */
  function ReadSingle(t: string, word: string): Option<seq<Token>>
    decreases |t|, 0
  {
    if t == "" || t[0] == '\0' then None
    else if t[0] == '\'' then Read(t[1..], Some(word))
    else ReadSingle(t[1..], word + [t[0]])
  }

  /** Inside double quotes a backslash quotes only what is special there; expansions are not read. */
  function ReadDouble(t: string, word: string): Option<seq<Token>>
    decreases |t|, 0
  {
    if t == "" || t[0] == '\0' || t[0] == '$' || t[0] == '`' then None
    else if t[0] == '"' then Read(t[1..], Some(word))
    else if t[0] == '\\' && |t| >= 2 && t[1] in {'$', '`', '"', '\\'} then ReadDouble(t[2..], word + [t[1]])
    else if t[0] == '\\' && |t| >= 2 && t[1] == '\n' then ReadDouble(t[2..], word)
    else ReadDouble(t[1..], word + [t[0]])
  }

  // ----- a quoted string reads back as itself

  predicate Plain(s: string) {
    forall i | 0 <= i < |s| :: s[i] != ' ' && s[i] != '\t' && s[i] != '\'' && s[i] != '"' && s[i] != '\\' && !Special(s[i])
  }

  lemma {:induction false} ReadPlain(s: string, rest: string, word: Option<string>)
    requires Plain(s)
    ensures Read(s + rest, word) == Read(rest, if s == "" then word else Some(SoFar(word) + s))
    decreases |s|
  {
    if s == "" {
      assert s + rest == rest;
    } else {
      assert (s + rest)[1..] == s[1..] + rest;
      ReadPlain(s[1..], rest, Some(SoFar(word) + [s[0]]));
      assert s == [s[0]] + s[1..];
      assert SoFar(word) + s == SoFar(word) + [s[0]] + s[1..];
      assert SoFar(word) + [s[0]] + "" == SoFar(word) + [s[0]];
    }
  }

  /** A quote written inside double quotes: out, in, the quote, out, in again. */
  lemma ReadQuotedQuote(rest: string, word: string)
    ensures ReadSingle("'\"'\"'" + rest, word) == ReadSingle(rest, word + "'")
  {
    var t := "'\"'\"'" + rest;
    assert t[1..] == "\"'\"'" + rest;
    assert ("\"'\"'" + rest)[1..] == "'\"'" + rest;
    assert ("'\"'" + rest)[1..] == "\"'" + rest;
    assert ("\"'" + rest)[1..] == "'" + rest;
    assert ("'" + rest)[1..] == rest;
    assert ReadSingle(t, word) == Read("\"'\"'" + rest, Some(word));
    assert Read("\"'\"'" + rest, Some(word)) == ReadDouble("'\"'" + rest, word);
    assert ReadDouble("'\"'" + rest, word) == ReadDouble("\"'" + rest, word + "'");
    assert ReadDouble("\"'" + rest, word + "'") == Read("'" + rest, Some(word + "'"));
  }

  lemma {:induction false} ReadReplaced(s: string, rest: string, word: string)
    ensures ReadSingle(Replaced(s) + "'" + rest, word) == if '\0' in s then None else Read(rest, Some(word + s))
    decreases |s|
  {
    if s == "" {
      assert Replaced(s) + "'" + rest == "'" + rest && ("'" + rest)[1..] == rest && word + s == word;
    } else {
      var more := Replaced(s[1..]) + "'" + rest;
      ReadReplaced(s[1..], rest, word + [s[0]]);
      assert word + [s[0]] + s[1..] == word + s;
      assert '\0' in s <==> s[0] == '\0' || '\0' in s[1..];
      if s[0] == '\'' {
        assert Replaced(s) + "'" + rest == "'\"'\"'" + more;
        ReadQuotedQuote(more, word);
      } else {
        assert Replaced(s) + "'" + rest == [s[0]] + more && ([s[0]] + more)[1..] == more;
      }
    }
  }

  /** A quoted string goes on with the word begun by exactly itself; one that holds a NUL cannot be read at all. */
  lemma ReadQuote(s: string, rest: string, word: Option<string>)
    ensures Read(ShellQuote(s) + rest, word) == if '\0' in s then None else Read(rest, Some(SoFar(word) + s))
  {
    if s != "" && AllSafe(s) {
      ReadPlain(s, rest, word);
    } else {
      assert (ShellQuote(s) + rest)[1..] == Replaced(s) + "'" + rest;
      ReadReplaced(s, rest, SoFar(word));
    }
  }

  // ----- the command

  /** The words a resume is meant to run. */
  function ResumeWords(source: string, id: string): seq<Token> {
    if source == "claude" then [Word("claude"), Word("--resume"), Word(id)]
    else if source == "codex" then [Word("codex"), Word("resume"), Word(id)]
    else if source == "cursor" then [Word("cursor-agent"), Word("--resume=" + id)]
    else if source == "grok" then [Word("grok"), Word("resume"), Word(id)]
    else [Word("muse"), Word("resume"), Word(id)]
  }

  function Intended(e: Entry): seq<Token>
    requires e.sessionId.Some?
  {
    (if Given(e.project).Some? then [Word("cd"), Word(e.project.value), AndIf] else []) + ResumeWords(e.source, e.sessionId.value)
  }

  lemma BeforeTwice(a: seq<Token>, b: seq<Token>, rest: Option<seq<Token>>)
    ensures Before(a, Before(b, rest)) == Before(a + b, rest)
    ensures Before([], rest) == rest
  {
    if rest.Some? {
      assert a + (b + rest.value) == (a + b) + rest.value && [] + rest.value == rest.value;
    }
  }

  /** A plain word and the blank after it. */
  lemma ReadWord(s: string, rest: string)
    requires Plain(s) && s != ""
    ensures Read(s + " " + rest, None) == Before([Word(s)], Read(rest, None))
  {
    assert s + " " + rest == s + (" " + rest) && (" " + rest)[1..] == rest && "" + s == s;
    ReadPlain(s, " " + rest, None);
  }

  lemma ReadLast(prefix: string, id: string)
    requires Plain(prefix)
    ensures Read(prefix + ShellQuote(id), None) == if '\0' in id then None else Some([Word(prefix + id)])
  {
    hide ShellQuote;
    hide Plain;
    var word := if prefix == "" then None else Some(prefix);
    assert ShellQuote(id) + "" == ShellQuote(id) && "" + prefix == prefix && SoFar(word) == prefix;
    ReadPlain(prefix, ShellQuote(id), None);
    ReadQuote(id, "", word);
  }

  /** Two plain words and a quoted string. */
  lemma ReadThree(a: string, b: string, id: string)
    requires Plain(a) && Plain(b) && a != "" && b != ""
    ensures Read(a + " " + (b + " " + ShellQuote(id)), None) == if '\0' in id then None else Some([Word(a), Word(b), Word(id)])
  {
    hide Read;
    hide ShellQuote;
    hide Plain;
    PlainEmpty();
    ReadWord(a, b + " " + ShellQuote(id));
    ReadWord(b, ShellQuote(id));
    ReadLast("", id);
    assert "" + ShellQuote(id) == ShellQuote(id) && "" + id == id;
    assert [Word(a)] + ([Word(b)] + [Word(id)]) == [Word(a), Word(b), Word(id)];
  }

  lemma PlainEmpty()
    ensures Plain("")
  {
  }

  lemma PlainWords()
    ensures Plain("claude") && Plain("--resume") && Plain("codex") && Plain("resume") && Plain("cursor-agent")
    ensures Plain("--resume=") && Plain("grok") && Plain("muse") && Plain("cd")
  {
  }

  lemma ReadResume(source: string, id: string)
    requires Resume(source, id).Some?
    ensures Read(Resume(source, id).value, None) == if '\0' in id then None else Some(ResumeWords(source, id))
  {
    hide Read;
    hide ShellQuote;
    PlainWords();
    hide Plain;
    var q := ShellQuote(id);
    if source == "claude" {
      assert "claude --resume " + q == "claude" + " " + ("--resume" + " " + q);
      ReadThree("claude", "--resume", id);
    } else if source == "codex" {
      assert "codex resume " + q == "codex" + " " + ("resume" + " " + q);
      ReadThree("codex", "resume", id);
    } else if source == "cursor" {
      assert "cursor-agent --resume=" + q == "cursor-agent" + " " + ("--resume=" + q);
      ReadWord("cursor-agent", "--resume=" + q);
      ReadLast("--resume=", id);
      assert [Word("cursor-agent")] + [Word("--resume=" + id)] == [Word("cursor-agent"), Word("--resume=" + id)];
    } else if source == "grok" {
      assert "grok resume " + q == "grok" + " " + ("resume" + " " + q);
      ReadThree("grok", "resume", id);
    } else {
      assert "muse resume " + q == "muse" + " " + ("resume" + " " + q);
      ReadThree("muse", "resume", id);
    }
  }

  lemma ReadCd(project: string, rest: string)
    ensures Read("cd " + ShellQuote(project) + " && " + rest, None) ==
              if '\0' in project then None else Before([Word("cd"), Word(project), AndIf], Read(rest, None))
  {
    hide ShellQuote;
    hide Read;
    PlainWords();
    hide Plain;
    var tail := " && " + rest;
    var t := ShellQuote(project) + tail;
    assert "cd " + ShellQuote(project) + " && " + rest == "cd" + " " + t;
    ReadWord("cd", t);
    ReadQuote(project, tail, None);
    assert "" + project == project;
    ReadAnd(rest, project);
    BeforeTwice([Word("cd")], [Word(project), AndIf], Read(rest, None));
    assert [Word("cd")] + [Word(project), AndIf] == [Word("cd"), Word(project), AndIf];
  }

  lemma ReadAnd(rest: string, word: string)
    ensures Read(" && " + rest, Some(word)) == Before([Word(word), AndIf], Read(rest, None))
  {
    assert (" && " + rest)[1..] == "&& " + rest;
    assert ("&& " + rest)[2..] == " " + rest;
    assert (" " + rest)[1..] == rest;
    BeforeTwice([], [], Read(rest, None));
    assert Read(" " + rest, None) == Before([], Read(rest, None));
    assert Read("&& " + rest, None) == Before([] + [AndIf], Read(" " + rest, None));
    BeforeTwice([Word(word)], [] + [AndIf], Read(rest, None));
    assert [Word(word)] + ([] + [AndIf]) == [Word(word), AndIf];
  }

  /** A command is offered exactly for a session that has an id, can be on this machine, and comes from a program that resumes. */
  lemma CommandOffered(e: Entry)
    ensures ResumeCommand(e).Some? <==>
              && e.sessionId.Some? && e.sessionId.value != ""
              && (e.locations == [] || "local" in e.locations)
              && e.source in {"claude", "codex", "cursor", "grok", "muse"}
  {
    hide ShellQuote;
  }

  /** A shell reads the command as exactly the intended words, session id and project unchanged, whenever neither holds a NUL. */
  lemma CommandReadsBack(e: Entry)
    requires ResumeCommand(e).Some?
    ensures Read(ResumeCommand(e).value, None) == Some(Intended(e)) <==>
              '\0' !in e.sessionId.value && (Given(e.project).Some? ==> '\0' !in e.project.value)
  {
    hide Read;
    hide ShellQuote;
    hide Resume;
    hide ResumeWords;
    var resume := Resume(e.source, e.sessionId.value).value;
    ReadResume(e.source, e.sessionId.value);
    if Given(e.project).Some? {
      ReadCd(e.project.value, resume);
    } else {
      assert Intended(e) == ResumeWords(e.source, e.sessionId.value);
    }
  }
}
