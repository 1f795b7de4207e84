/**
 * The check `run` makes of the `name` query parameter before using it as a file
 * name under the data directory (index.php): it must not be "" and must match
 * `/\A[a-z0-9\-]\z/`. The pattern has no quantifier, so as written it matches
 * exactly one character; the evidently intended pattern is `/\A[a-z0-9\-]+\z/`.
 */
module NameCheck {

  /** The character class `[a-z0-9\-]`. */
  predicate NameChar(c: char) {
    ('a' <= c <= 'z') || ('0' <= c <= '9') || c == '-'
  }

  /** The pattern as written, `\A[a-z0-9\-]\z`: one class character, then the end. */
  predicate OneCharMatch(s: string) {
    |s| == 1 && NameChar(s[0])
  }

  /** The intended pattern `\A[a-z0-9\-]+\z`: one or more class characters. */
  predicate RunMatch(s: string) {
    |s| >= 1 && forall k :: 0 <= k < |s| ==> NameChar(s[k])
  }

  /** The name is taken, as written: it is not "" and the one-character pattern matches. */
  function NameAcceptedAsWritten(name: string): bool {
    name != "" && OneCharMatch(name)
  }

  /** The name is taken, as intended: it is not "" and is made of class characters. */
  function NameAccepted(name: string): bool {
    name != "" && RunMatch(name)
  }

  /** As written, the check takes exactly the intended names of one character. */
  lemma NameCheckQuirk(name: string)
    ensures NameAcceptedAsWritten(name) <==> NameAccepted(name) && |name| == 1
  {
  }

  /** A hyphenated name the intended check takes is refused as written. */
  lemma NameCheckCounterexample()
    ensures NameAccepted("team-standup") && !NameAcceptedAsWritten("team-standup")
  {
    var s := "team-standup";
    assert forall k :: 0 <= k < |s| ==> ('a' <= s[k] <= 'z') || s[k] == '-';
  }

  /** The file the schedule is stored in: `$dir . '/' . $name . '.json'`. */
  function DataPath(dir: string, name: string): string {
    dir + "/" + name + ".json"
  }

  /** A name the intended check takes has no '/' and no '.', so the file is
      directly inside the data directory: the only '/' after dir is the one
      the path adds, and the only '.' after it starts the extension. */
  lemma NameAcceptedStaysInDirectory(dir: string, name: string)
    requires NameAccepted(name)
    ensures '/' !in name && '.' !in name
    ensures var p := DataPath(dir, name);
      p[..|dir| + 1] == dir + "/"
      && (forall k :: |dir| < k < |p| ==> p[k] != '/')
      && (forall k :: |dir| < k < |p| - 5 ==> p[k] != '.')
      && p[|p| - 5..] == ".json"
  {
    var p := DataPath(dir, name);
    forall k | |dir| < k < |p|
      ensures p[k] != '/'
      ensures k < |p| - 5 ==> p[k] != '.'
    {
      if k < |p| - 5 {
        assert p[k] == name[k - |dir| - 1];
        assert NameChar(name[k - |dir| - 1]);
      }
    }
  }
}
