/** Names inside the agent's servers directory: live server directories, the
    `.previous-<name>` asides, the `.restore-<name>-<nonce>` staging directories
    and the throwaway probe files. */
module DirNames {

  const PREVIOUS: string := ".previous-"
  const RESTORE: string := ".restore-"
  const PROBE: string := ".renameat2-probe-"

  predicate UuidChar(c: char) {
    'a' <= c <= 'z' || 'A' <= c <= 'Z' || '0' <= c <= '9' || c == '-' || c == '_'
  }

  /** `validate_uuid`: what a caller may name as a server. */
  predicate ValidUuid(name: string) {
    0 < |name| <= 64 && forall i :: 0 <= i < |name| ==> UuidChar(name[i])
  }

  /** `aside_targets_server_dir`: the dash tells a new-style aside from an old one. */
  predicate Hyphenated(name: string) {
    '-' in name
  }

  /** A version 4 UUID in simple form: 32 hexadecimal digits, no dash. */
  predicate SimpleUuid(nonce: string) {
    |nonce| == 32 && forall i :: 0 <= i < |nonce| ==> '0' <= nonce[i] <= '9' || 'a' <= nonce[i] <= 'f'
  }

  predicate IsAside(name: string) { PREVIOUS <= name }
  predicate IsStaging(name: string) { RESTORE <= name }
  predicate IsProbe(name: string) { PROBE <= name }

  function AsideOf(name: string): (r: string)
    ensures IsAside(r) && TargetOf(r) == name
  {
    PREVIOUS + name
  }

  /** The server directory a `.previous-<name>` entry belongs to. */
  function TargetOf(aside: string): string
    requires IsAside(aside)
  {
    aside[|PREVIOUS|..]
  }

  function StagingOf(name: string, nonce: string): (r: string)
    ensures IsStaging(r)
  {
    RESTORE + name + "-" + nonce
  }

  lemma AsideOfTarget(aside: string)
    requires IsAside(aside)
    ensures AsideOf(TargetOf(aside)) == aside
  {
    assert aside == aside[..|PREVIOUS|] + aside[|PREVIOUS|..];
  }

  /** The four kinds of name never collide. */
  lemma KindsApart(name: string)
    ensures ValidUuid(name) ==> !IsAside(name) && !IsStaging(name) && !IsProbe(name)
    ensures IsAside(name) ==> !IsStaging(name) && !IsProbe(name)
    ensures IsStaging(name) ==> !IsProbe(name)
  {
    if ValidUuid(name) {
      assert UuidChar(name[0]);
      assert name[0] != '.';
    }
    if IsAside(name) { assert name[0] == '.' && name[1] == PREVIOUS[1] == 'p'; }
    if IsStaging(name) { assert name[0] == '.' && name[1] == RESTORE[1] == 'r' && name[3] == RESTORE[3] == 's'; }
    if IsProbe(name) { assert name[0] == '.' && name[1] == PROBE[1] == 'r' && name[3] == PROBE[3] == 'n'; }
  }

  /** A staging name determines its server: the nonce is the dash-free tail. */
  lemma StagingInjective(u: string, m: string, v: string, n: string)
    requires SimpleUuid(m) && SimpleUuid(n)
    requires StagingOf(u, m) == StagingOf(v, n)
    ensures u == v && m == n
  {
    var s := StagingOf(u, m);
    assert |u| == |v|;
    assert u == s[|RESTORE|..|s| - 33];
    assert v == s[|RESTORE|..|s| - 33];
    assert m == s[|s| - 32..] == n;
  }

  /** Names are one to 64 characters long; nothing else about them depends on the length. */
  lemma NameLengths(name: string, k: nat)
    requires forall i :: 0 <= i < |name| ==> UuidChar(name[i])
    requires k <= |name|
    ensures ValidUuid(name[..k]) <==> 1 <= k <= 64
  {
    assert forall i :: 0 <= i < k ==> name[..k][i] == name[i];
  }
}
