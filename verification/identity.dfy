/**
  The identity `init` in kubeapply.go gives a request: an id, the time it
  was first seen, and the audit directory derived from both,
  `configurations/<date>/<unix seconds>-<id>`.
*/
module Identity {
  import opened Strings
  import opened Paths

  /**
    A moment as kubeapply formats it: the "2006-01-02" date, the Unix
    seconds in decimal, and the time.RubyDate rendering used in the
    description record.
  */
  datatype Instant = Instant(day: string, unix: string, rubyDate: string)

  const ConfigurationsRoot := "configurations"

  /**
    What formatting a time always yields: a date that is one path element
    (no '/', not empty, "." or "..") and a run of decimal digits.
  */
  predicate WellFormed(now: Instant) {
    NoChar(now.day, '/') && Normal(now.day)
    && |now.unix| > 0 && forall i | 0 <= i < |now.unix| :: '0' <= now.unix[i] <= '9'
  }

  /**
    The directory filepath.Join(configurations, date, unix + "-" + id) names,
    before cleaning; AuditDirClean shows cleaning leaves it as it is.
  */
  function AuditDir(now: Instant, id: string): (dir: string)
    ensures HasPrefix(dir, ConfigurationsRoot + "/")
  {
    (ConfigurationsRoot + "/") + (now.day + "/" + (now.unix + "-" + id))
  }

  /** Equal strings with a common prefix agree after it. */
  lemma CancelPrefix(p: string, x: string, y: string)
    requires p + x == p + y
    ensures x == y
  {
    assert x == (p + x)[|p|..];
    assert y == (p + y)[|p|..];
  }

  /** In `a + [c] + b` with no `c` in `a`, the first `c` sits at index |a|. */
  lemma SeparatorAt(a: string, b: string, c: char)
    requires NoChar(a, c)
    ensures (a + [c] + b)[|a|] == c
    ensures forall k | 0 <= k < |a| :: (a + [c] + b)[k] != c
  {
  }

  /** A string splits uniquely at the first occurrence of a separator. */
  lemma SplitAtFirst(a1: string, b1: string, a2: string, b2: string, c: char)
    requires NoChar(a1, c) && NoChar(a2, c)
    requires a1 + [c] + b1 == a2 + [c] + b2
    ensures a1 == a2 && b1 == b2
  {
    var s := a1 + [c] + b1;
    SeparatorAt(a1, b1, c);
    SeparatorAt(a2, b2, c);
    assert |a1| == |a2|;
    assert a1 == s[..|a1|] == a2;
    assert b1 == s[|a1| + 1..] == b2;
  }

  /**
    Distinct requests get distinct directories: the directory determines the
    date, the Unix seconds and the id it was built from.
  */
  lemma AuditDirInjective(now1: Instant, id1: string, now2: Instant, id2: string)
    requires WellFormed(now1) && WellFormed(now2)
    requires AuditDir(now1, id1) == AuditDir(now2, id2)
    ensures now1.day == now2.day && now1.unix == now2.unix && id1 == id2
  {
    CancelPrefix(ConfigurationsRoot + "/", now1.day + "/" + (now1.unix + "-" + id1), now2.day + "/" + (now2.unix + "-" + id2));
    SplitAtFirst(now1.day, now1.unix + "-" + id1, now2.day, now2.unix + "-" + id2, '/');
    SplitAtFirst(now1.unix, id1, now2.unix, id2, '-');
  }

  /**
    filepath.Join cleans the path it joins. For a well-formed time and an id
    without '/' the joined text is already clean, so AuditDir is what Join
    returns.
  */
  lemma AuditDirClean(now: Instant, id: string)
    requires WellFormed(now) && NoChar(id, '/')
    ensures Clean(AuditDir(now, id)) == AuditDir(now, id)
  {
    var last := now.unix + "-" + id;
    LastElement(now.unix, id);
    PlainElement(ConfigurationsRoot);
    ThreeElements(ConfigurationsRoot, now.day, last);
    assert AuditDir(now, id) == ConfigurationsRoot + "/" + (now.day + "/" + last);
    PlainClean(AuditDir(now, id));
  }

  /** "<unix>-<id>" is one normal element. */
  lemma LastElement(unix: string, id: string)
    requires |unix| > 0 && unix[0] != '.' && NoChar(unix, '/') && NoChar(id, '/')
    ensures NoChar(unix + "-" + id, '/') && Normal(unix + "-" + id)
  {
    NoCharConcat(unix, "-", '/');
    NoCharConcat(unix + "-", id, '/');
    assert (unix + "-" + id)[0] == unix[0];
  }

  /** Three normal elements joined by slashes make a plain path. */
  lemma ThreeElements(a: string, b: string, c: string)
    requires Normal(a) && Normal(b) && Normal(c)
    requires NoChar(a, '/') && NoChar(b, '/') && NoChar(c, '/')
    ensures Plain(a + "/" + (b + "/" + c))
  {
    SplitNoSlash(a);
    SplitNoSlash(b);
    SplitNoSlash(c);
    SplitConcat(b, c);
    SplitConcat(a, b + "/" + c);
    assert Split(a + "/" + (b + "/" + c)) == [a, b, c];
  }
}
