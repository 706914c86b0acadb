/**
 * The two fixed documents at the dataset root: the `dataset_description.json` template and
 * the README placeholder, each written unless already present.
 */
module Templates {
  import opened Wrappers
  import opened PyStr
  import opened Json
  import opened Fs

  /** An unfilled field: the empty string, or a list of them. */
  predicate Blank(v: Json) {
    v == Str("") || (v.Arr? && forall i :: 0 <= i < |v.items| ==> v.items[i] == Str(""))
  }

  /** The fields of the BIDS dataset description, in the order the template lists them. */
  const DescriptionFields: seq<string> := [
    "Name", "BIDSVersion", "DatasetType", "License", "Authors", "Acknowledgements",
    "HowToAcknowledge", "Funding", "EthicsApprovals", "ReferencesAndLinks", "DatasetDOI",
    "HEDVersion", "SourceDatasets"]

  /** The template's value for a field: version and type are set, the rest is blank or an example. */
  function TemplateValue(field: string): Json {
    if field == "BIDSVersion" then Str("1.9.0")
    else if field == "DatasetType" then Str("raw")
    else if field == "Authors" || field == "Funding" || field == "ReferencesAndLinks" then Arr([Str(""), Str("")])
    else if field == "EthicsApprovals" then Arr([Str("")])
    else if field == "SourceDatasets" then
      Arr([Obj([("URL", Str("s3://dicoms/studies/correlates")), ("Version", Str("April 11 2011"))])])
    else Str("")
  }

  /** The dict written to `dataset_description.json`. */
  function DatasetDescription(): Fields {
    seq(|DescriptionFields|, i requires 0 <= i < |DescriptionFields| => (DescriptionFields[i], TemplateValue(DescriptionFields[i])))
  }

  /** The template holds each field of the BIDS dataset description once, in the template's order. */
  lemma DatasetDescriptionKeys()
    ensures Keys(DatasetDescription()) == [
      "Name", "BIDSVersion", "DatasetType", "License", "Authors", "Acknowledgements",
      "HowToAcknowledge", "Funding", "EthicsApprovals", "ReferencesAndLinks", "DatasetDOI",
      "HEDVersion", "SourceDatasets"]
  {
    var d := DatasetDescription();
    forall i | 0 <= i < |d| ensures Keys(d)[i] == DescriptionFields[i] {
      KeysIndex(d, i);
    }
  }

  /** No field of the template appears twice. */
  lemma DatasetDescriptionDistinct()
    ensures DistinctKeys(DatasetDescription())
  {
    var d := DatasetDescription();
    FieldsDistinct();
    assert forall i :: 0 <= i < |d| ==> d[i].0 == DescriptionFields[i];
    DistinctKeysIff(d);
  }

  /** Each field name of the template is told apart by its length and first letter. */
  lemma FieldsDistinct()
    ensures forall i, j :: 0 <= i < j < |DescriptionFields| ==> DescriptionFields[i] != DescriptionFields[j]
  {
    var f := DescriptionFields;
    var tags := seq(|f|, i requires 0 <= i < |f| => |f[i]| * 128 + f[i][0] as int);
    assert tags == [4 * 128 + 'N' as int, 11 * 128 + 'B' as int, 11 * 128 + 'D' as int, 7 * 128 + 'L' as int,
                    7 * 128 + 'A' as int, 16 * 128 + 'A' as int, 16 * 128 + 'H' as int, 7 * 128 + 'F' as int,
                    15 * 128 + 'E' as int, 18 * 128 + 'R' as int, 10 * 128 + 'D' as int, 10 * 128 + 'H' as int,
                    14 * 128 + 'S' as int];
    forall i, j | 0 <= i < j < |f| ensures f[i] != f[j] {
      assert tags[i] != tags[j];
    }
  }

  /**
   * The template declares BIDS version 1.9.0 and a raw dataset, and leaves every other field
   * blank except the example source dataset.
   */
  lemma DatasetDescriptionValues(k: string)
    ensures var d := DatasetDescription();
      && Lookup(d, "BIDSVersion") == Some(Str("1.9.0"))
      && Lookup(d, "DatasetType") == Some(Str("raw"))
      && (k != "BIDSVersion" && k != "DatasetType" && k != "SourceDatasets" && Lookup(d, k).Some? ==>
            Blank(Lookup(d, k).value))
  {
    var d := DatasetDescription();
    LookupFirst(d, 1);
    LookupFirst(d, 2);
    if Lookup(d, k).Some? {
      LookupFound(d, k);
    }
  }

  /** `create_dataset_desc_json`: write the template unless the file is present. */
  method CreateDatasetDescJson(fs: FileSystem, root: string, overwrite: bool)
    modifies fs
    ensures fs.files == Written(old(fs.files), Path(root, "dataset_description.json"), JsonFile(Obj(DatasetDescription())), overwrite)
  {
    var datasetDesc := DatasetDescription();
    fs.WriteUnlessPresent(Path(root, "dataset_description.json"), JsonFile(Obj(datasetDesc)), overwrite);
  }

  /** The link to the starter kit's README template, which both README placeholders point to. */
  const StarterKitReadme: string := "https://github.com/bids-standard/bids-starter-kit/blob/main/templates/README.MD"

  /** `create_readme`: write the given placeholder text unless the file is present. */
  method CreateReadme(fs: FileSystem, root: string, markdownContent: string, overwrite: bool)
    modifies fs
    ensures fs.files == Written(old(fs.files), Path(root, "README.md"), TextFile(markdownContent), overwrite)
  {
    fs.WriteUnlessPresent(Path(root, "README.md"), TextFile(markdownContent), overwrite);
  }

  /** The last line of both README placeholders: a bullet linking the starter kit. */
  const StarterKitBullet: string := "- " + StarterKitReadme

  /** A placeholder ends with the bullet linking the starter kit. */
  predicate PointsToStarterKit(text: string) {
    EndsWith(text, StarterKitBullet)
  }
}
