/**
 * What `remove_background` and `remove_background_simple` decide from the
 * uploaded file alone: the extension allow-list, the size limit and the
 * name of the returned attachment.
 */
module FileChecks {
  import opened PyStr

  /** `MAX_FILE_SIZE`: 10 MiB. */
  const MaxFileSize: nat := 10 * 1024 * 1024

  /** The extensions `remove_background` accepts. */
  const AllowedExtensions: set<string> := {".jpg", ".jpeg", ".png", ".heic", ".heif"}

  /**
   * The extension the handler checks: a dot and the lower-cased text after
   * the last dot, or empty when the name has no dot at all.
   */
  function FileExtension(filename: string): (ext: string)
    ensures '.' !in filename ==> ext == ""
    ensures '.' in filename ==> ext == "." + Lower(filename[LastIndexOf(filename, '.') + 1..])
  {
    if '.' in filename then
      SplitLastFollowsLastSep(filename, '.');
      "." + Lower(LastPiece(Split(filename, '.')))
    else ""
  }

  /** The name's checked extension is on the allow-list; a name without a dot never is. */
  predicate IsAllowedFile(filename: string)
    ensures IsAllowedFile(filename) ==> '.' in filename
  {
    FileExtension(filename) in AllowedExtensions
  }

  /**
   * The allow-list decision: the name has a dot, and what follows the last
   * one is, lower-cased, one of the five image extensions. The proof is by
   * cases on the dot, not by induction on the name.
   */
  lemma {:induction false} AllowedExtensionOf(filename: string)
    ensures IsAllowedFile(filename) <==>
      '.' in filename && Lower(filename[LastIndexOf(filename, '.') + 1..]) in {"jpg", "jpeg", "png", "heic", "heif"}
  {
    if '.' in filename {
      AllowedVia(filename, Lower(filename[LastIndexOf(filename, '.') + 1..]));
    }
  }

  lemma AllowedVia(filename: string, x: string)
    requires FileExtension(filename) == "." + x
    ensures IsAllowedFile(filename) <==> x in {"jpg", "jpeg", "png", "heic", "heif"}
  {
    DottedMembership(x);
  }

  /** An extension is on the allow-list exactly when the text after its dot is one of the five names. */
  lemma DottedMembership(x: string)
    ensures "." + x in AllowedExtensions <==> x in {"jpg", "jpeg", "png", "heic", "heif"}
  {
    assert ("." + x)[1..] == x;
    assert ".jpg" == "." + "jpg" && ".jpeg" == "." + "jpeg" && ".png" == "." + "png";
    assert ".heic" == "." + "heic" && ".heif" == "." + "heif";
  }

  /** The size gate: at most `MAX_FILE_SIZE` bytes pass. */
  predicate WithinSizeLimit(size: nat)
    ensures WithinSizeLimit(size) <==> size <= 10_485_760
  {
    size <= MaxFileSize
  }

  /** `filename.rsplit('.', 1)[0]`: the name without its final extension. */
  function Stem(filename: string): (stem: string)
    ensures '.' !in filename ==> stem == filename
    ensures '.' in filename ==> stem == filename[..LastIndexOf(filename, '.')]
  {
    BeforeLast(filename, '.')
  }

  /** The attachment name of a result: `prefix`, the stem, then ".png". */
  function AttachmentName(prefix: string, filename: string): (name: string)
    ensures '.' !in filename ==> name == prefix + filename + ".png"
    ensures '.' in filename ==> name == prefix + filename[..LastIndexOf(filename, '.')] + ".png"
  {
    prefix + Stem(filename) + ".png"
  }

  /** The lower-cased name is the lower-cased stem followed by the checked extension. */
  lemma StemThenExtension(filename: string)
    requires '.' in filename
    ensures Lower(filename) == Lower(Stem(filename)) + FileExtension(filename)
  {
    var i := LastIndexOf(filename, '.');
    var low := Lower(filename);
    assert Stem(filename) == filename[..i] by {
      var head := BeforeLast(filename, '.');
      LastIndexOfUnique(filename, '.', |head|);
    }
    ExtensionOfLower(filename);
    LowerPrefix(filename, i);
    assert low[i] == '.';
    Reassemble(low, i, Lower(Stem(filename)), FileExtension(filename));
  }

  lemma Reassemble(s: string, i: nat, before: string, after: string)
    requires i < |s| && s[i] == '.'
    requires before == s[..i] && after == "." + s[i + 1..]
    ensures s == before + after
  {
    assert s == s[..i] + s[i..];
  }

  /** Names that lower-case alike have their dots in the same places. */
  lemma SameDots(a: string, b: string)
    requires Lower(a) == Lower(b)
    ensures |a| == |b|
    ensures forall k :: 0 <= k < |a| ==> (a[k] == '.' <==> b[k] == '.')
  {
    assert |Lower(a)| == |a| && |Lower(b)| == |b|;
    forall k | 0 <= k < |a| ensures a[k] == '.' <==> b[k] == '.' {
      assert Lower(a)[k] == Lower(b)[k];
    }
  }

  lemma LowerPrefix(s: string, k: nat)
    requires k <= |s|
    ensures Lower(s[..k]) == Lower(s)[..k]
  {
  }

  lemma LowerSuffix(s: string, k: nat)
    requires k <= |s|
    ensures Lower(s[k..]) == Lower(s)[k..]
  {
  }

  /** Names that lower-case alike have their last dot, if any, in the same place. */
  lemma SameLastDot(a: string, b: string)
    requires Lower(a) == Lower(b)
    ensures '.' in a <==> '.' in b
    ensures '.' in a ==> LastIndexOf(a, '.') == LastIndexOf(b, '.')
  {
    SameDots(a, b);
    if '.' in a {
      var j := LastIndexOf(a, '.');
      assert '.' !in b[j + 1..] by {
        forall m | j + 1 <= m < |b| ensures b[m] != '.' {
          assert a[m] == a[j + 1..][m - j - 1];
        }
      }
      LastIndexOfUnique(b, '.', j);
    } else {
      assert '.' !in b by {
        forall m | 0 <= m < |b| ensures b[m] != '.' {
          assert a[m] != '.';
        }
      }
    }
  }

  /**
   * The extension check ignores letter case: two names that lower-case
   * alike have the same extension.
   */
  lemma ExtensionIgnoresCase(a: string, b: string)
    requires Lower(a) == Lower(b)
    ensures FileExtension(a) == FileExtension(b)
  {
    SameLastDot(a, b);
    if '.' in a {
      ExtensionOfLower(a);
      ExtensionOfLower(b);
    }
  }

  /** The extension read off the lower-cased name. */
  lemma ExtensionOfLower(s: string)
    requires '.' in s
    ensures FileExtension(s) == "." + Lower(s)[LastIndexOf(s, '.') + 1..]
  {
    LowerSuffix(s, LastIndexOf(s, '.') + 1);
  }

  /**
   * A name made of a stem and a final extension (a dot, then no further
   * dot): the checked extension is that extension lower-cased, and the
   * stem is what the attachment name keeps.
   */
  lemma NameParts(stem: string, ext: string)
    requires |ext| > 0 && ext[0] == '.' && '.' !in ext[1..]
    ensures FileExtension(stem + ext) == Lower(ext)
    ensures Stem(stem + ext) == stem
  {
    var name := stem + ext;
    assert name[|stem|] == '.';
    assert name[|stem| + 1..] == ext[1..];
    LastIndexOfUnique(name, '.', |stem|);
    assert name[..|stem|] == stem;
    assert ext == "." + ext[1..];
    LowerAppend(".", ext[1..]);
  }

  /**
   * Whether a header value can be sent: the response encodes its header
   * values as Latin-1, so every code point must be below 256. The text
   * around the attachment name in `Content-Disposition` is ASCII, so the
   * header can be sent exactly when the attachment name can.
   */
  predicate IsLatin1(s: string)
  {
    forall i :: 0 <= i < |s| ==> s[i] as int < 256
  }

  lemma Latin1Append(a: string, b: string)
    ensures IsLatin1(a + b) <==> IsLatin1(a) && IsLatin1(b)
  {
    if IsLatin1(a + b) {
      assert forall i :: 0 <= i < |a| ==> a[i] == (a + b)[i];
      assert forall i :: 0 <= i < |b| ==> b[i] == (a + b)[|a| + i];
    }
    if IsLatin1(a) && IsLatin1(b) {
      forall i | 0 <= i < |a + b|
        ensures (a + b)[i] as int < 256
      {
        if i >= |a| {
          assert (a + b)[i] == b[i - |a|];
        }
      }
    }
  }

  /** Which attachment names can be sent depends on the stem alone. */
  lemma AttachmentLatin1(prefix: string, filename: string)
    requires IsLatin1(prefix)
    ensures IsLatin1(AttachmentName(prefix, filename)) <==> IsLatin1(Stem(filename))
  {
    assert IsLatin1(".png") by {
      assert ".png" == ['.', 'p', 'n', 'g'];
    }
    Latin1Append(prefix, Stem(filename));
    Latin1Append(prefix + Stem(filename), ".png");
  }
}
