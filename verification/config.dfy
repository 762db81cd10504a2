/** `getConfig` / `setConfig` of lib/git.js over the preferences store,
    modelled as an in-memory map from keys to stored strings. The store key
    of a setting is the caller's key (the working-directory path) followed
    by a fixed suffix. */
module Config {
  import opened Wrappers

  type Store = map<string, string>

  /** The stored defaults; a setting never written reads as `undefined`. */
  datatype WorkflowConfig = WorkflowConfig(projectName: Option<string>, sprintNumber: Option<string>)

  const ProjectSuffix := "projectName"
  const SprintSuffix := "sprintNumber"

  /** The key under which lib/github.js keeps the access token. */
  const TokenKey := "github.token"

  function ProjectKey(key: string): string { key + ProjectSuffix }
  function SprintKey(key: string): string { key + SprintSuffix }

  /** `conf.get(k)`. */
  function Lookup(store: Store, k: string): Option<string>
  {
    if k in store then Some(store[k]) else None
  }

  /** `getConfig(key)`. */
  function GetConfig(store: Store, key: string): WorkflowConfig
  {
    WorkflowConfig(Lookup(store, ProjectKey(key)), Lookup(store, SprintKey(key)))
  }

  /** `setConfig(key, {projectName, sprintNumber})`: two writes, and nothing
      else in the store changes. */
  function SetConfig(store: Store, key: string, projectName: string, sprintNumber: string): (s: Store)
    ensures s.Keys == store.Keys + {ProjectKey(key), SprintKey(key)}
    ensures forall k :: k in store && k != ProjectKey(key) && k != SprintKey(key) ==> s[k] == store[k]
  {
    store[ProjectKey(key) := projectName][SprintKey(key) := sprintNumber]
  }

  /** The suffix can be cancelled: different keys give different store keys. */
  lemma SuffixCancels(a: string, b: string, suffix: string)
    requires a + suffix == b + suffix
    ensures a == b
  {
    assert |a| == |b|;
    assert forall i :: 0 <= i < |a| ==> a[i] == (a + suffix)[i] == (b + suffix)[i] == b[i];
  }

  /** The two suffixes end in different characters, so a project key is
      never a sprint key. */
  lemma ProjectKeyIsNotSprintKey(a: string, b: string)
    ensures ProjectKey(a) != SprintKey(b)
  {
    var p, q := ProjectKey(a), SprintKey(b);
    assert p[|p| - 1] == 'e';
    assert q[|q| - 1] == 'r';
  }

  /** Reading back what was just written. */
  lemma GetAfterSet(store: Store, key: string, projectName: string, sprintNumber: string)
    ensures GetConfig(SetConfig(store, key, projectName, sprintNumber), key)
         == WorkflowConfig(Some(projectName), Some(sprintNumber))
  {
    ProjectKeyIsNotSprintKey(key, key);
  }

  /** Writing under one key leaves the settings under every other key as
      they were. */
  lemma SetLeavesOtherKeys(store: Store, key: string, other: string, projectName: string, sprintNumber: string)
    requires other != key
    ensures GetConfig(SetConfig(store, key, projectName, sprintNumber), other) == GetConfig(store, other)
  {
    if ProjectKey(other) == ProjectKey(key) {
      SuffixCancels(other, key, ProjectSuffix);
    }
    if SprintKey(other) == SprintKey(key) {
      SuffixCancels(other, key, SprintSuffix);
    }
    ProjectKeyIsNotSprintKey(other, key);
    ProjectKeyIsNotSprintKey(key, other);
  }

  /** Writing the settings never touches the cached access token. */
  lemma SetKeepsToken(store: Store, key: string, projectName: string, sprintNumber: string)
    ensures Lookup(SetConfig(store, key, projectName, sprintNumber), TokenKey) == Lookup(store, TokenKey)
  {
    var p, q := ProjectKey(key), SprintKey(key);
    assert p[|p| - 1] == 'e';
    assert q[|q| - 1] == 'r';
    assert TokenKey[|TokenKey| - 1] == 'n';
  }
}
