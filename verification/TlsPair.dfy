/** Publishing a certificate and its key: stage both, validate, rename twice, with a crash
    allowed at any disk change. */
module TlsPair {
  import opened Bytes

  const CERT := "cert.pem"
  const KEY := "key.pem"
  const CERT_STAGE := "cert.pem.tmp."
  const KEY_STAGE := "key.pem.tmp."

  type Text = string
  type Files = map<string, Text>

  /** What is decided elsewhere: a file's bytes are text, the certificate parses, it covers
      the names, the key belongs to it. */
  datatype Checks = Checks(isText: Text -> bool, parses: Text -> bool,
                           covers: (Text, seq<string>) -> bool, pairs: (Text, Text) -> bool)

  predicate Good(k: Checks, sans: seq<string>, cert: Text, key: Text) {
    k.parses(cert) && k.pairs(cert, key) && k.covers(cert, sans)
  }

  predicate Stale(name: string) {
    CERT_STAGE <= name || KEY_STAGE <= name
  }

  function Get(files: Files, name: string): Option<Text> {
    if name in files then Some(files[name]) else None
  }

  /** A request: names to cover, the pair that would be generated, the stage suffix, how
      many disk changes happen before the process dies, and what a torn write leaves. */
  datatype Call = Call(sans: seq<string>, cert: Text, key: Text, suffix: string, lifetime: nat, torn: Text)

  datatype Outcome = Served(cert: Text, key: Text) | Refused | Failed | Crashed

  ghost predicate Publishes(files: Files, cert: Option<Text>, key: Option<Text>) {
    Get(files, CERT) == cert && Get(files, KEY) == key
  }

  ghost predicate Usable(k: Checks, sans: seq<string>, files: Files) {
    CERT in files && KEY in files && !Unreadable(k, files) && Good(k, sans, files[CERT], files[KEY])
  }

  /** Both files are there and one of them is not text: the call fails before it judges them. */
  ghost predicate Unreadable(k: Checks, files: Files) {
    CERT in files && KEY in files && !(k.isText(files[CERT]) && k.isText(files[KEY]))
  }

  /** What one call may do to the directory. */
  ghost predicate Step(k: Checks, c: Call, before: Files, after: Files, r: Outcome) {
    var valid := Good(k, c.sans, c.cert, c.key);
    && (Usable(k, c.sans, before) ==> after == before && r == Served(before[CERT], before[KEY]))
    && (r.Served? ==> Publishes(after, Some(r.cert), Some(r.key)) && Good(k, c.sans, r.cert, r.key))
    && (r.Served? ==> !Unreadable(k, after))
    && (r.Served? && !Usable(k, c.sans, before) ==>
          r == Served(c.cert, c.key) && forall n :: n in after ==> !Stale(n))
    && (r.Failed? <==> Unreadable(k, before))
    && (r.Failed? ==> after == before)
    && (r.Refused? <==> !Usable(k, c.sans, before) && !Unreadable(k, before) && !valid && !r.Crashed?)
    && (r.Refused? ==> Publishes(after, Get(before, CERT), Get(before, KEY)) && forall n :: n in after ==> !Stale(n))
    && (r.Crashed? ==>
          || Publishes(after, Get(before, CERT), Get(before, KEY))
          || (valid && Publishes(after, Some(c.cert), Get(before, KEY))))
    && (c.lifetime >= |before| + 4 ==> !r.Crashed?)
    && (forall n :: n != CERT && n != KEY && !Stale(n) ==> Get(after, n) == Get(before, n))
  }

  ghost predicate OffStage(before: Files, after: Files) {
    forall n :: !Stale(n) ==> Get(after, n) == Get(before, n)
  }

  /** The part of a call that generates, from a directory without leftovers. */
  ghost predicate Generates(k: Checks, c: Call, before: Files, after: Files, r: Outcome) {
    var valid := Good(k, c.sans, c.cert, c.key);
    && (r.Served? ==>
          && valid && r == Served(c.cert, c.key) && Publishes(after, Some(c.cert), Some(c.key))
          && forall n :: n in after ==> !Stale(n))
    && !r.Failed?
    && (r.Refused? ==>
          !valid && Publishes(after, Get(before, CERT), Get(before, KEY)) && forall n :: n in after ==> !Stale(n))
    && (r.Crashed? ==>
          || Publishes(after, Get(before, CERT), Get(before, KEY))
          || (valid && Publishes(after, Some(c.cert), Get(before, KEY))))
    && (forall n :: n != CERT && n != KEY && !Stale(n) ==> Get(after, n) == Get(before, n))
  }

  class Folder {
    var files: Files

    constructor (found: Files)
      ensures files == found
    {
      files := found;
    }

    /** `cleanup_stale_stage` */
    method CleanupStaleStage(lifetime: nat) returns (left: nat, alive: bool)
      modifies this
      ensures forall n :: !Stale(n) ==> Get(files, n) == Get(old(files), n)
      ensures alive ==> (forall n :: n in files ==> !Stale(n)) && left + |old(files)| >= lifetime
      ensures !alive ==> lifetime < |old(files)|
    {
      left := lifetime;
      var names := files.Keys;
      while names != {}
        invariant names <= files.Keys
        invariant forall n :: n in files && Stale(n) ==> n in names
        invariant forall n :: !Stale(n) ==> Get(files, n) == Get(old(files), n)
        invariant left + |old(files).Keys| >= lifetime + |names|
      {
        assert exists n :: n in names by { SomeName(names); }
        var n :| n in names;
        if Stale(n) {
          if left == 0 { return 0, false; }
          files := files - {n};
          left := left - 1;
        }
        names := names - {n};
      }
      alive := true;
    }

    /** `stage_file`, for the certificate and then the key; a torn write is a stage file. */
    method StageBoth(c: Call, stageCert: string, stageKey: string, left: nat) returns (alive: bool)
      requires Stale(stageCert) && Stale(stageKey)
      modifies this
      ensures OffStage(old(files), files) && (alive <==> left >= 2)
      ensures alive ==> files == old(files)[stageCert := c.cert][stageKey := c.key]
    {
      hide Stale;
      if left == 0 { files := files[stageCert := c.torn]; return false; }
      files := files[stageCert := c.cert];
      if left == 1 { files := files[stageKey := c.torn]; return false; }
      files := files[stageKey := c.key];
      return true;
    }

    /** Two removals, either of which may be the last thing the process does. */
    method Discard(stageCert: string, stageKey: string, left: nat) returns (alive: bool)
      requires Stale(stageCert) && Stale(stageKey)
      modifies this
      ensures OffStage(old(files), files) && (alive <==> left >= 2)
      ensures alive ==> files == old(files) - {stageCert, stageKey}
    {
      hide Stale;
      if left == 0 { return false; }
      files := files - {stageCert};
      if left == 1 { return false; }
      files := files - {stageKey};
      return true;
    }

    /** The two renames, certificate first. */
    method RenameBoth(stageCert: string, stageKey: string, left: nat) returns (alive: bool)
      requires stageCert in files && stageKey in files && stageCert != stageKey
      requires !Stale(CERT) && !Stale(KEY) && CERT != KEY && Stale(stageCert) && Stale(stageKey)
      modifies this
      ensures alive <==> left >= 2
      ensures alive ==> files == (old(files) - {stageCert, stageKey})[CERT := old(files)[stageCert]][KEY := old(files)[stageKey]]
      ensures !alive ==> files == if left == 0 then old(files) else (old(files) - {stageCert})[CERT := old(files)[stageCert]]
    {
      hide Stale;
      if left == 0 { return false; }
      files := (files - {stageCert})[CERT := files[stageCert]];
      if left == 1 { return false; }
      files := (files - {stageKey})[KEY := files[stageKey]];
      return true;
    }

    /** Stage, validate, publish. */
    method Publish(k: Checks, c: Call, left: nat) returns (r: Outcome)
      requires forall n :: n in files ==> !Stale(n)
      modifies this
      ensures Generates(k, c, old(files), files, r)
      ensures left >= 4 ==> !r.Crashed?
    {
      NamesApart(c.suffix);
      hide Stale, Good;
      var stageCert, stageKey := CERT_STAGE + c.suffix, KEY_STAGE + c.suffix;
      var alive := StageBoth(c, stageCert, stageKey, left);
      if !alive { return Crashed; }
      if !Good(k, c.sans, files[stageCert], files[stageKey]) {
        alive := Discard(stageCert, stageKey, left - 2);
        return if alive then Refused else Crashed;
      }
      alive := RenameBoth(stageCert, stageKey, left - 2);
      return if alive then Served(c.cert, c.key) else Crashed;
    }

    /** `ensure_material`; what it generates is text. */
    method EnsureMaterial(k: Checks, c: Call) returns (r: Outcome)
      requires k.isText(c.cert) && k.isText(c.key)
      modifies this
      ensures Step(k, c, old(files), files, r)
      ensures r.Served? ==> k.parses(r.cert) && k.covers(r.cert, c.sans) && k.pairs(r.cert, r.key)
      ensures CERT in old(files) && KEY in old(files)
              && k.isText(old(files)[CERT]) && k.isText(old(files)[KEY]) && k.parses(old(files)[CERT])
              && k.covers(old(files)[CERT], c.sans) && k.pairs(old(files)[CERT], old(files)[KEY]) ==>
                r == Served(old(files)[CERT], old(files)[KEY]) && files == old(files)
      ensures k.parses(c.cert) && k.covers(c.cert, c.sans) && k.pairs(c.cert, c.key) ==> !r.Refused?
    {
      GoodMeans(k, c.sans);
      hide Stale, Good;
      if CERT in files && KEY in files {
        if !k.isText(files[CERT]) || !k.isText(files[KEY]) { return Failed; }
        if Good(k, c.sans, files[CERT], files[KEY]) { return Served(files[CERT], files[KEY]); }
      }
      NamesApart(c.suffix);
      var left, alive := CleanupStaleStage(c.lifetime);
      if !alive { return Crashed; }
      r := Publish(k, c, left);
    }
  }

  lemma GoodMeans(k: Checks, sans: seq<string>)
    ensures forall cert, key :: Good(k, sans, cert, key) <==> k.parses(cert) && k.covers(cert, sans) && k.pairs(cert, key)
  {
  }

  lemma SomeName(names: set<string>)
    ensures names == {} || exists n :: n in names
  {
    if forall n :: n !in names { assert names == {}; }
  }

  lemma NamesApart(suffix: string)
    ensures CERT_STAGE + suffix != KEY_STAGE + suffix
    ensures Stale(CERT_STAGE + suffix) && Stale(KEY_STAGE + suffix)
    ensures CERT != KEY && !Stale(CERT) && !Stale(KEY)
  {
    assert (CERT_STAGE + suffix)[0] == 'c' && (KEY_STAGE + suffix)[0] == 'k';
    assert CERT[0] == 'c' && KEY[0] == 'k';
    assert KEY_STAGE[0] == 'k' && CERT_STAGE[0] == 'c';
  }

  // ---------------- Histories ----------------

  ghost predicate StepAt(k: Checks, calls: seq<Call>, disks: seq<Files>, rs: seq<Outcome>, i: nat)
    requires |disks| == |calls| + 1 && |rs| == |calls| && i < |calls|
  {
    Step(k, calls[i], disks[i], disks[i + 1], rs[i])
  }

  ghost predicate IsHistory(k: Checks, calls: seq<Call>, disks: seq<Files>, rs: seq<Outcome>) {
    && |disks| == |calls| + 1 && |rs| == |calls|
    && forall i :: 0 <= i < |calls| ==> StepAt(k, calls, disks, rs, i)
  }

  ghost predicate FreshGood(k: Checks, c: Call) {
    Good(k, c.sans, c.cert, c.key)
  }

  /** Through any history of calls and crashes, what sits under the two published names was
      there from the start or is whole text of a pair that passed validation. */
  lemma {:induction false} NothingTornPublished(k: Checks, calls: seq<Call>, disks: seq<Files>, rs: seq<Outcome>, i: nat)
    requires IsHistory(k, calls, disks, rs) && i < |disks|
    ensures Get(disks[i], CERT) == Get(disks[0], CERT)
            || exists j :: 0 <= j < i && FreshGood(k, calls[j]) && Get(disks[i], CERT) == Some(calls[j].cert)
    ensures Get(disks[i], KEY) == Get(disks[0], KEY)
            || exists j :: 0 <= j < i && FreshGood(k, calls[j]) && Get(disks[i], KEY) == Some(calls[j].key)
  {
    if i > 0 {
      NothingTornPublished(k, calls, disks, rs, i - 1);
      assert StepAt(k, calls, disks, rs, i - 1);
      StepOrigin(k, calls[i - 1], disks[i - 1], disks[i], rs[i - 1]);
    }
  }

  lemma StepOrigin(k: Checks, c: Call, before: Files, after: Files, r: Outcome)
    requires Step(k, c, before, after, r)
    ensures Get(after, CERT) == Get(before, CERT) || (FreshGood(k, c) && Get(after, CERT) == Some(c.cert))
    ensures Get(after, KEY) == Get(before, KEY) || (FreshGood(k, c) && Get(after, KEY) == Some(c.key))
  {
  }

  /** After any history, whatever is served is what the disk holds, and it passes every
      check; a call that lives long enough and can generate a valid pair is served. */
  lemma ServedIsOnDisk(k: Checks, calls: seq<Call>, disks: seq<Files>, rs: seq<Outcome>, i: nat)
    requires IsHistory(k, calls, disks, rs) && i < |calls|
    ensures rs[i].Served? ==> Publishes(disks[i + 1], Some(rs[i].cert), Some(rs[i].key))
                              && Good(k, calls[i].sans, rs[i].cert, rs[i].key)
    ensures calls[i].lifetime >= |disks[i]| + 4 && FreshGood(k, calls[i]) && !Unreadable(k, disks[i]) ==> rs[i].Served?
  {
    assert StepAt(k, calls, disks, rs, i);
  }

  /** A pair that is not text is never repaired: every later call fails on it, and only such
      pairs fail. */
  lemma {:induction false} UnreadableStays(k: Checks, calls: seq<Call>, disks: seq<Files>, rs: seq<Outcome>, i: nat, j: nat)
    requires IsHistory(k, calls, disks, rs) && i <= j < |calls|
    ensures Unreadable(k, disks[i]) ==> rs[j] == Failed && disks[j + 1] == disks[i]
    ensures rs[i] == Failed <==> Unreadable(k, disks[i])
  {
    hide Step;
    assert StepAt(k, calls, disks, rs, i);
    FailsExactly(k, calls[i], disks[i], disks[i + 1], rs[i]);
    if j > i {
      UnreadableStays(k, calls, disks, rs, i, j - 1);
      assert StepAt(k, calls, disks, rs, j);
      FailsExactly(k, calls[j], disks[j], disks[j + 1], rs[j]);
    }
  }

  lemma FailsExactly(k: Checks, c: Call, before: Files, after: Files, r: Outcome)
    requires Step(k, c, before, after, r)
    ensures (r == Failed <==> Unreadable(k, before)) && (r == Failed ==> after == before)
  {
  }

  ghost predicate TextOnly(k: Checks, files: Files) {
    (CERT in files ==> k.isText(files[CERT])) && (KEY in files ==> k.isText(files[KEY]))
  }

  /** It cannot come from here: calls that generate text, from published text, never get
      there, whatever crashes. */
  lemma {:induction false} TextStays(k: Checks, calls: seq<Call>, disks: seq<Files>, rs: seq<Outcome>, i: nat)
    requires IsHistory(k, calls, disks, rs) && i < |disks| && TextOnly(k, disks[0])
    requires forall j :: 0 <= j < |calls| ==> k.isText(calls[j].cert) && k.isText(calls[j].key)
    ensures TextOnly(k, disks[i]) && !Unreadable(k, disks[i])
  {
    if i > 0 {
      TextStays(k, calls, disks, rs, i - 1);
      assert StepAt(k, calls, disks, rs, i - 1);
      hide Step;
      StepOrigin(k, calls[i - 1], disks[i - 1], disks[i], rs[i - 1]);
    }
  }

  /** So from published text, or nothing, every call that lives long enough and generates a
      valid pair is served, whatever calls and crashes came before it. */
  lemma AlwaysHeals(k: Checks, calls: seq<Call>, disks: seq<Files>, rs: seq<Outcome>, i: nat)
    requires IsHistory(k, calls, disks, rs) && i < |calls| && TextOnly(k, disks[0])
    requires forall j :: 0 <= j < |calls| ==> k.isText(calls[j].cert) && k.isText(calls[j].key)
    requires calls[i].lifetime >= |disks[i]| + 4
    requires k.parses(calls[i].cert) && k.covers(calls[i].cert, calls[i].sans) && k.pairs(calls[i].cert, calls[i].key)
    ensures rs[i].Served? && Publishes(disks[i + 1], Some(rs[i].cert), Some(rs[i].key))
    ensures k.parses(rs[i].cert) && k.covers(rs[i].cert, calls[i].sans) && k.pairs(rs[i].cert, rs[i].key)
  {
    TextStays(k, calls, disks, rs, i);
    ServedIsOnDisk(k, calls, disks, rs, i);
  }

  /** Once served, a pair is served again and again: the same names never rotate it. */
  lemma {:induction false} PairStays(k: Checks, calls: seq<Call>, disks: seq<Files>, rs: seq<Outcome>, i: nat, j: nat)
    requires IsHistory(k, calls, disks, rs) && i <= j < |calls| && rs[i].Served?
    requires forall m :: i <= m <= j ==> calls[m].sans == calls[i].sans
    ensures rs[j] == rs[i] && disks[j + 1] == disks[i + 1]
  {
    assert StepAt(k, calls, disks, rs, i);
    if j > i {
      PairStays(k, calls, disks, rs, i, j - 1);
      assert StepAt(k, calls, disks, rs, j);
    }
  }
}
