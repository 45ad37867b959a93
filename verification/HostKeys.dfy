/** SSH host keys: made while the rootfs is built, removed again from VM images. */
module HostKeys {
  import opened Paths
  import opened Text

  const KEY_TYPES: seq<string> := ["rsa", "ecdsa", "ed25519"]

  function PrivateKey(keyType: string): string {
    "ssh_host_" + keyType + "_key"
  }

  function PublicKey(keyType: string): string {
    "ssh_host_" + keyType + "_key.pub"
  }

  predicate IsHostKey(name: string) {
    StartsWith(name, "ssh_host_") && (EndsWith(name, "_key") || EndsWith(name, "_key.pub"))
  }

  function WithoutHostKeys(files: Files): Files {
    map n | n in files && !IsHostKey(n) :: files[n]
  }

  predicate HasPair(files: Files, keyType: string) {
    PrivateKey(keyType) in files && PublicKey(keyType) in files
  }

  predicate HoldsPair(files: Files, keyType: string, keys: (string, string)) {
    HasPair(files, keyType) && files[PrivateKey(keyType)] == keys.0 && files[PublicKey(keyType)] == keys.1
  }

  /** Both files of a pair are as before. */
  ghost predicate SamePair(a: Files, b: Files, keyType: string) {
    && (PrivateKey(keyType) in a <==> PrivateKey(keyType) in b)
    && (PublicKey(keyType) in a <==> PublicKey(keyType) in b)
    && (PrivateKey(keyType) in a && PrivateKey(keyType) in b ==> a[PrivateKey(keyType)] == b[PrivateKey(keyType)])
    && (PublicKey(keyType) in a && PublicKey(keyType) in b ==> a[PublicKey(keyType)] == b[PublicKey(keyType)])
  }

  lemma KeyNames(keyType: string)
    ensures IsHostKey(PrivateKey(keyType)) && IsHostKey(PublicKey(keyType))
  {
  }

  lemma KeyNamesApart(i: nat, j: nat)
    requires i < |KEY_TYPES| && j < |KEY_TYPES| && i != j
    ensures PrivateKey(KEY_TYPES[i]) != PrivateKey(KEY_TYPES[j]) && PublicKey(KEY_TYPES[i]) != PublicKey(KEY_TYPES[j])
    ensures PrivateKey(KEY_TYPES[i]) != PublicKey(KEY_TYPES[j])
  {
    assert |PrivateKey(KEY_TYPES[i])| == 13 + |KEY_TYPES[i]| && |PublicKey(KEY_TYPES[j])| == 17 + |KEY_TYPES[j]|;
    assert PrivateKey(KEY_TYPES[i])[9] == KEY_TYPES[i][0];
    assert PublicKey(KEY_TYPES[j])[9] == KEY_TYPES[j][0];
  }

  lemma OthersKept(a: Files, b: Files)
    requires WithoutHostKeys(a) == WithoutHostKeys(b)
    ensures forall n :: n in a && !IsHostKey(n) ==> n in b && b[n] == a[n]
  {
    forall n | n in a && !IsHostKey(n) ensures n in b && b[n] == a[n] {
      assert n in WithoutHostKeys(a) && WithoutHostKeys(a)[n] == a[n];
      assert WithoutHostKeys(b)[n] == b[n];
    }
  }

  class SshDirectory {
    var files: Files

    constructor (files: Files)
      ensures this.files == files
    {
      this.files := files;
    }

    /** Removes the host keys and nothing else, whatever the order in which the directory is read. */
    method RegenerateSshKeys()
      modifies this
      ensures files == WithoutHostKeys(old(files))
      ensures forall n :: n in files <==>
                n in old(files)
                && !(StartsWith(n, "ssh_host_") && (EndsWith(n, "_key") || EndsWith(n, "_key.pub")))
      ensures forall n :: n in files ==> files[n] == old(files)[n]
    {
      var unread := files.Keys;
      while unread != {}
        invariant unread <= files.Keys <= old(files).Keys
        invariant forall n :: n in old(files) && n !in unread ==> (n in files <==> !IsHostKey(n))
        invariant forall n :: n in files ==> files[n] == old(files)[n]
        decreases unread
      {
        var name :| name in unread;
        unread := unread - {name};
        if IsHostKey(name) {
          files := files - {name};
        }
      }
    }

    /** Replaces a pair that is not whole. */
    method MakePair(i: nat, keygenOk: bool, keys: (string, string)) returns (ok: bool)
      requires i < |KEY_TYPES|
      modifies this
      ensures ok <==> keygenOk || HasPair(old(files), KEY_TYPES[i])
      ensures ok ==> HasPair(files, KEY_TYPES[i])
      ensures !HasPair(old(files), KEY_TYPES[i]) ==>
                if keygenOk then HoldsPair(files, KEY_TYPES[i], keys)
                else PrivateKey(KEY_TYPES[i]) !in files && PublicKey(KEY_TYPES[i]) !in files
      ensures HasPair(old(files), KEY_TYPES[i]) ==> files == old(files)
      ensures forall j :: 0 <= j < |KEY_TYPES| && j != i ==> SamePair(old(files), files, KEY_TYPES[j])
      ensures WithoutHostKeys(files) == WithoutHostKeys(old(files))
    {
      var private, public := PrivateKey(KEY_TYPES[i]), PublicKey(KEY_TYPES[i]);
      if private in files && public in files {
        return true;
      }
      KeyNames(KEY_TYPES[i]);
      forall j: nat | j < |KEY_TYPES| && j != i
        ensures PrivateKey(KEY_TYPES[j]) !in {private, public} && PublicKey(KEY_TYPES[j]) !in {private, public}
      {
        KeyNamesApart(i, j);
        KeyNamesApart(j, i);
      }
      files := files - {private, public};
      if keygenOk {
        files := files[private := keys.0][public := keys.1];
      }
      return keygenOk;
    }

    /**
     * Succeeds when every key type had a whole pair or ssh-keygen made one; whole pairs and all other
     * files are kept, so removing the keys again gives what removing them at once would have given.
     */
    method CreateSshHostKeys(keygenOk: seq<bool>, keys: seq<(string, string)>) returns (ok: bool)
      requires |keygenOk| == |keys| == |KEY_TYPES|
      modifies this
      ensures ok <==> forall i :: 0 <= i < |KEY_TYPES| ==> keygenOk[i] || HasPair(old(files), KEY_TYPES[i])
      ensures ok <==> forall i :: 0 <= i < |KEY_TYPES| ==>
                        keygenOk[i] || (PrivateKey(KEY_TYPES[i]) in old(files) && PublicKey(KEY_TYPES[i]) in old(files))
      ensures ok ==> forall i :: 0 <= i < |KEY_TYPES| ==>
                       PrivateKey(KEY_TYPES[i]) in files && PublicKey(KEY_TYPES[i]) in files
      ensures forall n :: n in old(files) && !IsHostKey(n) ==> n in files && files[n] == old(files)[n]
      ensures forall i :: 0 <= i < |KEY_TYPES| && HasPair(old(files), KEY_TYPES[i]) ==>
                            SamePair(old(files), files, KEY_TYPES[i])
      ensures ok ==> forall i :: 0 <= i < |KEY_TYPES| && !HasPair(old(files), KEY_TYPES[i]) ==>
                                   HoldsPair(files, KEY_TYPES[i], keys[i])
      ensures WithoutHostKeys(files) == WithoutHostKeys(old(files))
    {
      for i := 0 to |KEY_TYPES|
        invariant forall j :: 0 <= j < i ==> HasPair(files, KEY_TYPES[j])
        invariant forall j :: 0 <= j < i && !HasPair(old(files), KEY_TYPES[j]) ==>
                                HoldsPair(files, KEY_TYPES[j], keys[j])
        invariant forall j :: 0 <= j < i ==> keygenOk[j] || HasPair(old(files), KEY_TYPES[j])
        invariant forall j :: 0 <= j < |KEY_TYPES| && (i <= j || HasPair(old(files), KEY_TYPES[j])) ==>
                                SamePair(old(files), files, KEY_TYPES[j])
        invariant WithoutHostKeys(files) == WithoutHostKeys(old(files))
      {
        ok := MakePair(i, keygenOk[i], keys[i]);
        OthersKept(old(files), files);
        if !ok {
          return;
        }
      }
      OthersKept(old(files), files);
      ok := true;
    }
  }
}
