/** Model of a website setting's registration data: the two preference keys
    derived from the setting's name, the restriction on its initial default
    value, and the preference-registration flags derived from its sync and
    lossy statuses. */
module ContentSettings {

  datatype Option<T> = None | Some(value: T)

  // ---------------------------------------------------------------------------
  // Constants
  // ---------------------------------------------------------------------------

  /** Prefix of the preference that stores a setting's per-site exceptions. */
  const PrefPrefix: string := "profile.content_settings.exceptions."

  /** Prefix of the preference that stores a setting's default value. */
  const DefaultPrefPrefix: string := "profile.default_content_setting_values."

  /** Registration flags are a 32-bit unsigned word. */
  type Flags = bv32

  // ASSUMPTION: the three flag constants are declared in the preference
  // registry headers, which are not part of this model. They are taken here
  // as the all-zero word and two distinct single bits (bit 0 for a syncable
  // preference, bit 8 for a lossy one).
  /** No flag set. */
  const NoRegistrationFlags: Flags := 0
  /** The preference is synced between devices. */
  const SyncablePref: Flags := 1
  /** Writes of the preference may be lost on shutdown. */
  const LossyPref: Flags := 0x100

  // ---------------------------------------------------------------------------
  // Data model
  // ---------------------------------------------------------------------------

  /** The kind of a setting; it is only stored. */
  type ContentSettingsType = nat

  datatype SyncStatus = Syncable | Unsyncable

  datatype LossyStatus = Lossy | NotLossy

  /** A generic value; only its type tag matters to this model. */
  datatype Value =
    | NullValue
    | BooleanValue(b: bool)
    | IntegerValue(i: int)
    | DoubleValue
    | StringValue(s: string)
    | BinaryValue
    | DictionaryValue
    | ListValue

  /** The only initial default values a setting accepts, for legacy reasons:
      none at all, or an integer. */
  predicate IsAbsentOrInteger(v: Option<Value>) {
    v.None? || v.value.IntegerValue?
  }

  // ---------------------------------------------------------------------------
  // Preference names
  // ---------------------------------------------------------------------------

  /** The replacement applied to each character of a setting name. */
  function HyphenToUnderscore(c: char): char {
    if c == '-' then '_' else c
  }

  /** The setting name with every '-' replaced by '_'. */
  function ReplaceHyphens(s: string): string {
    if s == [] then [] else [HyphenToUnderscore(s[0])] + ReplaceHyphens(s[1..])
  }

  /** The preference name derived from a setting name and a prefix. */
  function PrefNameOf(name: string, prefix: string): string {
    prefix + ReplaceHyphens(name)
  }

  lemma {:induction false} ReplaceHyphensAt(s: string, i: nat)
    requires i < |s|
    ensures |ReplaceHyphens(s)| == |s|
    ensures ReplaceHyphens(s)[i] == HyphenToUnderscore(s[i])
  {
    ReplaceHyphensLength(s);
    if i > 0 {
      ReplaceHyphensAt(s[1..], i - 1);
    }
  }

  lemma {:induction false} ReplaceHyphensLength(s: string)
    ensures |ReplaceHyphens(s)| == |s|
  {
    if s != [] {
      ReplaceHyphensLength(s[1..]);
    }
  }

  /** Replacement is character for character: the same length, and every
      character other than '-' is kept at its own offset. */
  lemma {:induction false} ReplaceHyphensPointwise(s: string)
    ensures |ReplaceHyphens(s)| == |s|
    ensures forall i :: 0 <= i < |s| ==>
      ReplaceHyphens(s)[i] == (if s[i] == '-' then '_' else s[i])
  {
    ReplaceHyphensLength(s);
    forall i | 0 <= i < |s|
      ensures ReplaceHyphens(s)[i] == (if s[i] == '-' then '_' else s[i])
    {
      ReplaceHyphensAt(s, i);
    }
  }

  /** No '-' survives the replacement. */
  lemma {:induction false} ReplaceHyphensRemovesHyphens(s: string)
    ensures '-' !in ReplaceHyphens(s)
  {
    if s != [] {
      ReplaceHyphensRemovesHyphens(s[1..]);
    }
  }

  /** A string without '-' is left unchanged. */
  lemma {:induction false} ReplaceHyphensFixesHyphenFree(s: string)
    requires '-' !in s
    ensures ReplaceHyphens(s) == s
  {
    if s != [] {
      assert s == [s[0]] + s[1..];
      ReplaceHyphensFixesHyphenFree(s[1..]);
    }
  }

  /** Applying the replacement a second time changes nothing. */
  lemma {:induction false} ReplaceHyphensIdempotent(s: string)
    ensures ReplaceHyphens(ReplaceHyphens(s)) == ReplaceHyphens(s)
  {
    ReplaceHyphensRemovesHyphens(s);
    ReplaceHyphensFixesHyphenFree(ReplaceHyphens(s));
  }

  /** Two setting names give the same replaced name exactly when they have the
      same length and agree at every offset up to swapping '-' for '_'; so,
      for instance, "a-b" and "a_b" share their preferences. */
  lemma {:induction false} ReplaceHyphensSameIff(a: string, b: string)
    ensures ReplaceHyphens(a) == ReplaceHyphens(b) <==>
      (|a| == |b| && forall i :: 0 <= i < |a| ==> HyphenToUnderscore(a[i]) == HyphenToUnderscore(b[i]))
  {
    ReplaceHyphensPointwise(a);
    ReplaceHyphensPointwise(b);
    if |a| == |b| && forall i :: 0 <= i < |a| ==> HyphenToUnderscore(a[i]) == HyphenToUnderscore(b[i]) {
      forall i | 0 <= i < |a| ensures ReplaceHyphens(a)[i] == ReplaceHyphens(b)[i] {
        ReplaceHyphensAt(a, i);
        ReplaceHyphensAt(b, i);
      }
    }
    if ReplaceHyphens(a) == ReplaceHyphens(b) {
      forall i | 0 <= i < |a| ensures HyphenToUnderscore(a[i]) == HyphenToUnderscore(b[i]) {
        ReplaceHyphensAt(a, i);
        ReplaceHyphensAt(b, i);
      }
    }
  }

  /** The layout of a derived preference name: the prefix, then the name
      character for character with '-' turned into '_', and no '-' after the
      prefix. */
  lemma PrefNameLayout(name: string, prefix: string)
    ensures |PrefNameOf(name, prefix)| == |prefix| + |name|
    ensures PrefNameOf(name, prefix)[..|prefix|] == prefix
    ensures forall i :: 0 <= i < |name| && name[i] != '-' ==>
      PrefNameOf(name, prefix)[|prefix| + i] == name[i]
    ensures forall i :: 0 <= i < |name| && name[i] == '-' ==>
      PrefNameOf(name, prefix)[|prefix| + i] == '_'
    ensures '-' !in PrefNameOf(name, prefix)[|prefix|..]
  {
    ReplaceHyphensPointwise(name);
    ReplaceHyphensRemovesHyphens(name);
    assert PrefNameOf(name, prefix)[|prefix|..] == ReplaceHyphens(name);
  }

  /** Both prefixes are free of '-', so a derived preference name is a fixed
      point of the replacement as a whole. */
  lemma PrefNameIsFixedPoint(name: string)
    ensures ReplaceHyphens(PrefNameOf(name, PrefPrefix)) == PrefNameOf(name, PrefPrefix)
    ensures ReplaceHyphens(PrefNameOf(name, DefaultPrefPrefix)) == PrefNameOf(name, DefaultPrefPrefix)
  {
    ReplaceHyphensRemovesHyphens(name);
    assert '-' !in PrefPrefix;
    assert '-' !in DefaultPrefPrefix;
    ReplaceHyphensFixesHyphenFree(PrefNameOf(name, PrefPrefix));
    ReplaceHyphensFixesHyphenFree(PrefNameOf(name, DefaultPrefPrefix));
  }

  /** With one prefix, two names give the same preference exactly when they
      give the same replaced name. */
  lemma PrefNameSameIff(a: string, b: string, prefix: string)
    ensures PrefNameOf(a, prefix) == PrefNameOf(b, prefix) <==> ReplaceHyphens(a) == ReplaceHyphens(b)
  {
    if PrefNameOf(a, prefix) == PrefNameOf(b, prefix) {
      assert ReplaceHyphens(a) == PrefNameOf(a, prefix)[|prefix|..];
      assert ReplaceHyphens(b) == PrefNameOf(b, prefix)[|prefix|..];
    }
  }

  /** No exceptions preference coincides with any default-value preference,
      whichever two names they come from: the prefixes differ at offset 8. */
  lemma ExceptionsAndDefaultPrefsDiffer(a: string, b: string)
    ensures PrefNameOf(a, PrefPrefix) != PrefNameOf(b, DefaultPrefPrefix)
  {
    assert PrefNameOf(a, PrefPrefix)[8] == 'c';
    assert PrefNameOf(b, DefaultPrefPrefix)[8] == 'd';
  }

  /** Builds the preference name: copies the name, rewrites each '-' in the
      copy to '_' in place, then appends the copy to the prefix. */
  method GetPrefName(name: string, prefix: string) returns (prefName: string)
    ensures prefName == PrefNameOf(name, prefix)
  {
    var replaced := name;
    var i := 0;
    while i < |replaced|
      invariant 0 <= i <= |replaced| == |name|
      invariant forall k :: 0 <= k < i ==> replaced[k] == HyphenToUnderscore(name[k])
      invariant forall k :: i <= k < |replaced| ==> replaced[k] == name[k]
    {
      if replaced[i] == '-' {
        replaced := replaced[i := '_'];
      }
      i := i + 1;
    }
    ReplaceHyphensPointwise(name);
    prefName := prefix + replaced;
  }

  // ---------------------------------------------------------------------------
  // Registration flags
  // ---------------------------------------------------------------------------

  /** The flags a setting registers its preferences with. */
  function RegistrationFlags(sync: SyncStatus, lossy: LossyStatus): (r: Flags)
    ensures (r & SyncablePref != 0) <==> sync == Syncable
    ensures (r & LossyPref != 0) <==> lossy == Lossy
    ensures r & !(SyncablePref | LossyPref) == 0
    ensures sync != Syncable && lossy != Lossy ==> r == NoRegistrationFlags
  {
    (if sync == Syncable then SyncablePref else NoRegistrationFlags)
      | (if lossy == Lossy then LossyPref else NoRegistrationFlags)
  }

  /** The flags determine both statuses: different statuses never share flags. */
  lemma RegistrationFlagsInjective(s1: SyncStatus, l1: LossyStatus, s2: SyncStatus, l2: LossyStatus)
    ensures RegistrationFlags(s1, l1) == RegistrationFlags(s2, l2) <==> s1 == s2 && l1 == l2
  {
    var f1, f2 := RegistrationFlags(s1, l1), RegistrationFlags(s2, l2);
    if f1 == f2 {
      assert (f1 & SyncablePref != 0) == (f2 & SyncablePref != 0);
      assert (f1 & LossyPref != 0) == (f2 & LossyPref != 0);
    }
  }

  // ---------------------------------------------------------------------------
  // The setting's description
  // ---------------------------------------------------------------------------

  /** Everything the content-settings system needs to know to register and
      store one website setting. All fields are fixed at construction. */
  class WebsiteSettingsInfo {
    const settingType: ContentSettingsType
    const name: string
    const prefName: string
    const defaultValuePrefName: string
    const initialDefaultValue: Option<Value>
    const syncStatus: SyncStatus
    const lossyStatus: LossyStatus

    /** The object invariant: both preference names are derived from the
        name, and the default value is absent or an integer. */
    predicate Valid() {
      prefName == PrefNameOf(name, PrefPrefix) &&
      defaultValuePrefName == PrefNameOf(name, DefaultPrefPrefix) &&
      IsAbsentOrInteger(initialDefaultValue)
    }

    constructor (settingType: ContentSettingsType, name: string, initialDefaultValue: Option<Value>,
                 syncStatus: SyncStatus, lossyStatus: LossyStatus)
      requires IsAbsentOrInteger(initialDefaultValue)
      ensures Valid()
      ensures this.settingType == settingType && this.name == name
      ensures this.prefName == PrefPrefix + ReplaceHyphens(name)
      ensures this.defaultValuePrefName == DefaultPrefPrefix + ReplaceHyphens(name)
      ensures this.initialDefaultValue == initialDefaultValue
      ensures this.syncStatus == syncStatus && this.lossyStatus == lossyStatus
    {
      var exceptions := GetPrefName(name, PrefPrefix);
      var defaults := GetPrefName(name, DefaultPrefPrefix);
      this.settingType := settingType;
      this.name := name;
      this.prefName := exceptions;
      this.defaultValuePrefName := defaults;
      this.initialDefaultValue := initialDefaultValue;
      this.syncStatus := syncStatus;
      this.lossyStatus := lossyStatus;
    }

    /** Starts from no flags, then adds the syncable bit for a syncable
        setting and the lossy bit for a lossy one. */
    method GetPrefRegistrationFlags() returns (flags: Flags)
      ensures flags == RegistrationFlags(syncStatus, lossyStatus)
      ensures (flags & SyncablePref != 0) <==> syncStatus == Syncable
      ensures (flags & LossyPref != 0) <==> lossyStatus == Lossy
      ensures flags & !(SyncablePref | LossyPref) == 0
    {
      flags := NoRegistrationFlags;
      if syncStatus == Syncable {
        flags := flags | SyncablePref;
      }
      if lossyStatus == Lossy {
        flags := flags | LossyPref;
      }
    }
  }

  /** A well-formed setting's two preferences are always distinct. */
  lemma PrefNamesDiffer(info: WebsiteSettingsInfo)
    requires info.Valid()
    ensures info.prefName != info.defaultValuePrefName
  {
    ExceptionsAndDefaultPrefsDiffer(info.name, info.name);
  }
}
