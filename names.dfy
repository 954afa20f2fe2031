/** The string formatting and splitting the driver does: the names it gives
    to images, volumes and flavors, the disk-slot index in a device key, and
    the local path of a downloaded disk. */
module Names {
  import opened Wrappers

  /** `"%s_image_%s" % (vm_name, index)` */
  function ImageName(vmName: string, index: string): string
  {
    vmName + "_image_" + index
  }

  /** `"%s_vol_%s" % (vm_name, index)` */
  function VolumeName(vmName: string, index: string): string
  {
    vmName + "_vol_" + index
  }

  /** `'%s_flavor' % config_name` */
  function FlavorName(configName: string): string
  {
    configName + "_flavor"
  }

  /** Two volumes of one VM get the same name only for the same index. */
  lemma VolumeNameInjective(vmName: string, a: string, b: string)
    ensures VolumeName(vmName, a) == VolumeName(vmName, b) ==> a == b
  {
    var prefix := vmName + "_vol_";
    if VolumeName(vmName, a) == VolumeName(vmName, b) {
      assert a == VolumeName(vmName, a)[|prefix|..];
      assert b == VolumeName(vmName, b)[|prefix|..];
    }
  }

  /** The boot image's name never coincides with a volume's name. */
  lemma ImageNameIsNoVolumeName(vmName: string, index: string, other: string)
    ensures ImageName(vmName, index) != VolumeName(vmName, other)
  {
    assert ImageName(vmName, index)[|vmName| + 1] == 'i';
    assert VolumeName(vmName, other)[|vmName| + 1] == 'v';
  }

  /** What follows the first ':' of `s`; None when `s` holds no ':'. */
  function AfterFirstColon(s: string): (r: Option<string>)
    ensures r.None? <==> ':' !in s
    ensures r.Some? ==> |r.value| < |s|
  {
    if s == [] then None
    else if s[0] == ':' then Some(s[1..])
    else AfterFirstColon(s[1..])
  }

  /** The first ':'-separated field of `s`: the longest prefix without ':'. */
  function FirstField(s: string): (r: string)
    ensures ':' !in r
    ensures r <= s
    ensures r == s || s[|r|] == ':'
  {
    if s == [] || s[0] == ':' then []
    else [s[0]] + FirstField(s[1..])
  }

  /** `key.split(':')[1]`: the second ':'-separated field of a device key.
      None stands for the IndexError a key without ':' raises. */
  function KeyIndex(key: string): (r: Option<string>)
    ensures r.None? <==> ':' !in key
    ensures r.Some? ==> ':' !in r.value
  {
    match AfterFirstColon(key)
    case None => None
    case Some(rest) => Some(FirstField(rest))
  }

  lemma {:induction false} AfterFirstColonOfComposed(prefix: string, tail: string)
    requires ':' !in prefix
    ensures AfterFirstColon(prefix + [':'] + tail) == Some(tail)
  {
    if prefix != [] {
      assert (prefix + [':'] + tail)[1..] == prefix[1..] + [':'] + tail;
      AfterFirstColonOfComposed(prefix[1..], tail);
    }
  }

  lemma {:induction false} FirstFieldOfComposed(field: string, rest: string)
    requires ':' !in field
    requires rest == [] || rest[0] == ':'
    ensures FirstField(field + rest) == field
  {
    if field != [] {
      assert (field + rest)[1..] == field[1..] + rest;
      FirstFieldOfComposed(field[1..], rest);
    }
  }

  /** Splitting a key built as `<prefix>:<index><rest>` gives back `index`,
      whatever further ':'-fields `rest` holds. */
  lemma KeyIndexOfComposedKey(prefix: string, index: string, rest: string)
    requires ':' !in prefix && ':' !in index
    requires rest == [] || rest[0] == ':'
    ensures KeyIndex(prefix + ":" + index + rest) == Some(index)
  {
    assert prefix + ":" + index + rest == prefix + [':'] + (index + rest);
    AfterFirstColonOfComposed(prefix, index + rest);
    FirstFieldOfComposed(index, rest);
  }

  /** `os.path.join(directory, name)` on POSIX: an absolute name replaces
      the directory, otherwise a '/' is put between them unless the
      directory is empty or already ends in '/'. */
  function JoinPath(directory: string, name: string): (r: string)
    ensures |name| <= |r| && r[|r| - |name|..] == name
    ensures (name == [] || name[0] != '/') ==> directory <= r
    ensures name != [] && name[0] == '/' ==> r == name
  {
    if name != [] && name[0] == '/' then name
    else if directory == [] || directory[|directory| - 1] == '/' then directory + name
    else directory + "/" + name
  }
}
