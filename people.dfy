/**
 * people.tsx: the icon shown for a person's role. Six role names have an
 * icon file of their own; any other role, compared exactly and case
 * sensitively, gets the default icon.
 */
module People {
  import opened Wrappers

  /** `roleIconMapping`. */
  const RoleIconMapping: map<string, string> := map[
    "CEO" := "ceo.svg",
    "Co-Founder" := "founder.svg",
    "Front-end" := "front.svg",
    "Mobile" := "mobile.svg",
    "Back-end" := "back.svg",
    "Design" := "design.svg"
  ]

  const IconDirectory := "/icons/"
  const DefaultIcon := "default-icon.svg"

  /** `roleIconMapping[role]`: `undefined` for an unmapped role. */
  function IconFile(role: string): Option<string>
  {
    if role in RoleIconMapping then Some(RoleIconMapping[role]) else None
  }

  /** `/icons/${roleIconMapping[role] || "default-icon.svg"}`. */
  function GetIconPath(role: string): (path: string)
    ensures |path| > |IconDirectory| && path[..|IconDirectory|] == IconDirectory
    ensures role in RoleIconMapping <==> path != IconDirectory + DefaultIcon
    ensures role in RoleIconMapping ==> path == IconDirectory + RoleIconMapping[role]
  {
    var file := IconFile(role);
    // Every mapped file name is a non-empty string, so `||` falls back only on `undefined`.
    assert file.Some? ==> file.value != "" && file.value != DefaultIcon;
    var name := if file.Some? && file.value != "" then file.value else DefaultIcon;
    assert name != DefaultIcon ==> (IconDirectory + name)[|IconDirectory|..] != DefaultIcon;
    IconDirectory + name
  }

  /** A mapped role yields its own file: "CEO" gives "/icons/ceo.svg". */
  lemma CeoIcon()
    ensures GetIconPath("CEO") == IconDirectory + "ceo.svg"
  {
    assert "CEO" in RoleIconMapping;
  }

  /** The lookup is exact and case sensitive: "ceo" gets the default icon. */
  lemma LowerCaseRoleUnmapped()
    ensures GetIconPath("ceo") == IconDirectory + DefaultIcon
  {
    assert "ceo" != "CEO" by {
      assert "ceo"[0] != "CEO"[0];
    }
  }

  /** Two different mapped roles never share an icon. */
  lemma MappedIconsDistinct(a: string, b: string)
    requires a in RoleIconMapping && b in RoleIconMapping && a != b
    ensures GetIconPath(a) != GetIconPath(b)
  {
    assert GetIconPath(a)[|IconDirectory|..] == RoleIconMapping[a];
    assert GetIconPath(b)[|IconDirectory|..] == RoleIconMapping[b];
  }
}
