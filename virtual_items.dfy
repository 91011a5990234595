/**
  The record schema of `src/types/virtual-item.ts`: the 44 string fields of a virtual item, their
  property names, and the fixed table between the human-readable CSV column labels and the fields,
  which both stores use for import and export.
*/
module VirtualItems {
  import opened Wrappers
  import opened JsObject

  /** The 44 string fields of `VirtualItem`, in declaration order. */
  datatype Field =
    | Platform
    | PlatformUrl
    | IntellectualProperty
    | AgeRating
    | Category
    | Type
    | SubType
    | Title
    | MintSupply
    | IncludeSerialNumber
    | PreMintCount
    | ReservedSerialNumbers
    | SerialNumberTransferOrder
    | PurchaseCurrency1
    | PurchasePrice1
    | AndOr
    | PurchaseCurrency2
    | PurchasePrice2
    | UnlockCurrency
    | UnlockThreshold
    | MediaPrimaryGoogleUrl
    | MediaDisplayGoogleUrl
    | MediaPrimaryS3Bucket
    | MediaDisplayS3Bucket
    | Transferability
    | P2pSaleRoyalty
    | Description
    | MintLimitPerWallet
    | P2pLimitPerWallet
    | Collection
    | Series
    | Episode
    | Set
    | Season
    | Level
    | Rank
    | Enhancement
    | LevelRankUpgradeType
    | Artist
    | EditionType
    | Rarity
    | BonusMediaUrl
    | Copyright
    | Comments

  /** A stored record: the id the store assigned and the string fields it holds. A key missing
      from `fields` is a property that is `undefined` on the JavaScript object. */
  datatype Item = Item(id: string, fields: map<Field, string>)

  /** Every field is present: what the database backend and every CSV import produce. */
  predicate Complete(fields: map<Field, string>) {
    forall f: Field :: f in fields
  }

  /** `item[f] || ''` for a string property. */
  function ValueOr(fields: map<Field, string>, f: Field): (s: string)
    ensures f in fields ==> s == fields[f]
    ensures f !in fields ==> s == ""
  {
    if f in fields then fields[f] else ""
  }

  /** `item[f]` is truthy: present and not the empty string. */
  predicate Present(fields: map<Field, string>, f: Field) {
    f in fields && fields[f] != ""
  }

  /** The position of a field in declaration order. */
  function Index(f: Field): (i: nat)
    ensures i < 44
  {
    match f
    case Platform => 0
    case PlatformUrl => 1
    case IntellectualProperty => 2
    case AgeRating => 3
    case Category => 4
    case Type => 5
    case SubType => 6
    case Title => 7
    case MintSupply => 8
    case IncludeSerialNumber => 9
    case PreMintCount => 10
    case ReservedSerialNumbers => 11
    case SerialNumberTransferOrder => 12
    case PurchaseCurrency1 => 13
    case PurchasePrice1 => 14
    case AndOr => 15
    case PurchaseCurrency2 => 16
    case PurchasePrice2 => 17
    case UnlockCurrency => 18
    case UnlockThreshold => 19
    case MediaPrimaryGoogleUrl => 20
    case MediaDisplayGoogleUrl => 21
    case MediaPrimaryS3Bucket => 22
    case MediaDisplayS3Bucket => 23
    case Transferability => 24
    case P2pSaleRoyalty => 25
    case Description => 26
    case MintLimitPerWallet => 27
    case P2pLimitPerWallet => 28
    case Collection => 29
    case Series => 30
    case Episode => 31
    case Set => 32
    case Season => 33
    case Level => 34
    case Rank => 35
    case Enhancement => 36
    case LevelRankUpgradeType => 37
    case Artist => 38
    case EditionType => 39
    case Rarity => 40
    case BonusMediaUrl => 41
    case Copyright => 42
    case Comments => 43
  }

  /** The field at position `i` of declaration order. */
  function FieldAt(i: nat): Field
    requires i < 44
  {
    if i == 0 then Platform
    else if i == 1 then PlatformUrl
    else if i == 2 then IntellectualProperty
    else if i == 3 then AgeRating
    else if i == 4 then Category
    else if i == 5 then Type
    else if i == 6 then SubType
    else if i == 7 then Title
    else if i == 8 then MintSupply
    else if i == 9 then IncludeSerialNumber
    else if i == 10 then PreMintCount
    else if i == 11 then ReservedSerialNumbers
    else if i == 12 then SerialNumberTransferOrder
    else if i == 13 then PurchaseCurrency1
    else if i == 14 then PurchasePrice1
    else if i == 15 then AndOr
    else if i == 16 then PurchaseCurrency2
    else if i == 17 then PurchasePrice2
    else if i == 18 then UnlockCurrency
    else if i == 19 then UnlockThreshold
    else if i == 20 then MediaPrimaryGoogleUrl
    else if i == 21 then MediaDisplayGoogleUrl
    else if i == 22 then MediaPrimaryS3Bucket
    else if i == 23 then MediaDisplayS3Bucket
    else if i == 24 then Transferability
    else if i == 25 then P2pSaleRoyalty
    else if i == 26 then Description
    else if i == 27 then MintLimitPerWallet
    else if i == 28 then P2pLimitPerWallet
    else if i == 29 then Collection
    else if i == 30 then Series
    else if i == 31 then Episode
    else if i == 32 then Set
    else if i == 33 then Season
    else if i == 34 then Level
    else if i == 35 then Rank
    else if i == 36 then Enhancement
    else if i == 37 then LevelRankUpgradeType
    else if i == 38 then Artist
    else if i == 39 then EditionType
    else if i == 40 then Rarity
    else if i == 41 then BonusMediaUrl
    else if i == 42 then Copyright
    else Comments
  }

  /** Every field, in declaration order: the column order of the import and export tables. */
  function FieldOrder(): (fs: seq<Field>)
    ensures |fs| == 44
  {
    seq(44, i requires 0 <= i < 44 => FieldAt(i))
  }

  /** The property name of a field, as in `VirtualItem`. */
  function Name(f: Field): string {
    match f
    case Platform => "platform"
    case PlatformUrl => "platformUrl"
    case IntellectualProperty => "intellectualProperty"
    case AgeRating => "ageRating"
    case Category => "category"
    case Type => "type"
    case SubType => "subType"
    case Title => "title"
    case MintSupply => "mintSupply"
    case IncludeSerialNumber => "includeSerialNumber"
    case PreMintCount => "preMintCount"
    case ReservedSerialNumbers => "reservedSerialNumbers"
    case SerialNumberTransferOrder => "serialNumberTransferOrder"
    case PurchaseCurrency1 => "purchaseCurrency1"
    case PurchasePrice1 => "purchasePrice1"
    case AndOr => "andOr"
    case PurchaseCurrency2 => "purchaseCurrency2"
    case PurchasePrice2 => "purchasePrice2"
    case UnlockCurrency => "unlockCurrency"
    case UnlockThreshold => "unlockThreshold"
    case MediaPrimaryGoogleUrl => "mediaPrimaryGoogleUrl"
    case MediaDisplayGoogleUrl => "mediaDisplayGoogleUrl"
    case MediaPrimaryS3Bucket => "mediaPrimaryS3Bucket"
    case MediaDisplayS3Bucket => "mediaDisplayS3Bucket"
    case Transferability => "transferability"
    case P2pSaleRoyalty => "p2pSaleRoyalty"
    case Description => "description"
    case MintLimitPerWallet => "mintLimitPerWallet"
    case P2pLimitPerWallet => "p2pLimitPerWallet"
    case Collection => "collection"
    case Series => "series"
    case Episode => "episode"
    case Set => "set"
    case Season => "season"
    case Level => "level"
    case Rank => "rank"
    case Enhancement => "enhancement"
    case LevelRankUpgradeType => "levelRankUpgradeType"
    case Artist => "artist"
    case EditionType => "editionType"
    case Rarity => "rarity"
    case BonusMediaUrl => "bonusMediaUrl"
    case Copyright => "copyright"
    case Comments => "comments"
  }

  /** The CSV column label of a field, as in the import and export tables of both stores. */
  function Label(f: Field): string {
    match f
    case Platform => "Platform"
    case PlatformUrl => "Platform URL"
    case IntellectualProperty => "Intellectual Property"
    case AgeRating => "Age Rating"
    case Category => "Category"
    case Type => "Type"
    case SubType => "Sub-Type"
    case Title => "Title"
    case MintSupply => "Mint Supply"
    case IncludeSerialNumber => "Include Serial #"
    case PreMintCount => "Pre-Mint Count"
    case ReservedSerialNumbers => "Reserved Serial #s"
    case SerialNumberTransferOrder => "Serial # Transfer Order"
    case PurchaseCurrency1 => "Purchase Currency - 1"
    case PurchasePrice1 => "Purchase Price - 1"
    case AndOr => "And / Or"
    case PurchaseCurrency2 => "Purchase Currency - 2"
    case PurchasePrice2 => "Purchase Price - 2"
    case UnlockCurrency => "Unlock Currency"
    case UnlockThreshold => "Unlock Threshold"
    case MediaPrimaryGoogleUrl => "Media - Primary (Google URL)"
    case MediaDisplayGoogleUrl => "Media - Display (Google URL)"
    case MediaPrimaryS3Bucket => "Media - Primary (S3 bucket)"
    case MediaDisplayS3Bucket => "Media - Display (S3 bucket)"
    case Transferability => "Transferabilty"
    case P2pSaleRoyalty => "P2P Sale Royalty"
    case Description => "Description"
    case MintLimitPerWallet => "Mint Limit / Wallet"
    case P2pLimitPerWallet => "P2P Limit / Wallet"
    case Collection => "Collection"
    case Series => "Series"
    case Episode => "Episode"
    case Set => "Set"
    case Season => "Season"
    case Level => "Level"
    case Rank => "Rank"
    case Enhancement => "Enhancement"
    case LevelRankUpgradeType => "Level/Rank Upgrade Type (Dynamic or Additional)"
    case Artist => "Artist"
    case EditionType => "Edition Type"
    case Rarity => "Rarity"
    case BonusMediaUrl => "Bonus Media URL (e.g., YouTube link)"
    case Copyright => "Copyright"
    case Comments => "Comments"
  }

  /** The field with property name `s`, if any. */
  function FieldNamed(s: string): Option<Field> {
    match |s|
    case 3 =>
      if s == "set" then Some(Set)
      else None
    case 4 =>
      if s == "type" then Some(Type)
      else if s == "rank" then Some(Rank)
      else None
    case 5 =>
      if s == "title" then Some(Title)
      else if s == "andOr" then Some(AndOr)
      else if s == "level" then Some(Level)
      else None
    case 6 =>
      if s == "series" then Some(Series)
      else if s == "season" then Some(Season)
      else if s == "artist" then Some(Artist)
      else if s == "rarity" then Some(Rarity)
      else None
    case 7 =>
      if s == "subType" then Some(SubType)
      else if s == "episode" then Some(Episode)
      else None
    case 8 =>
      if s == "platform" then Some(Platform)
      else if s == "category" then Some(Category)
      else if s == "comments" then Some(Comments)
      else None
    case 9 =>
      if s == "ageRating" then Some(AgeRating)
      else if s == "copyright" then Some(Copyright)
      else None
    case 10 =>
      if s == "mintSupply" then Some(MintSupply)
      else if s == "collection" then Some(Collection)
      else None
    case 11 =>
      if s == "platformUrl" then Some(PlatformUrl)
      else if s == "description" then Some(Description)
      else if s == "enhancement" then Some(Enhancement)
      else if s == "editionType" then Some(EditionType)
      else None
    case 12 =>
      if s == "preMintCount" then Some(PreMintCount)
      else None
    case 13 =>
      if s == "bonusMediaUrl" then Some(BonusMediaUrl)
      else None
    case 14 =>
      if s == "purchasePrice1" then Some(PurchasePrice1)
      else if s == "purchasePrice2" then Some(PurchasePrice2)
      else if s == "unlockCurrency" then Some(UnlockCurrency)
      else if s == "p2pSaleRoyalty" then Some(P2pSaleRoyalty)
      else None
    case 15 =>
      if s == "unlockThreshold" then Some(UnlockThreshold)
      else if s == "transferability" then Some(Transferability)
      else None
    case 17 =>
      if s == "purchaseCurrency1" then Some(PurchaseCurrency1)
      else if s == "purchaseCurrency2" then Some(PurchaseCurrency2)
      else if s == "p2pLimitPerWallet" then Some(P2pLimitPerWallet)
      else None
    case 18 =>
      if s == "mintLimitPerWallet" then Some(MintLimitPerWallet)
      else None
    case 19 =>
      if s == "includeSerialNumber" then Some(IncludeSerialNumber)
      else None
    case 20 =>
      if s == "intellectualProperty" then Some(IntellectualProperty)
      else if s == "mediaPrimaryS3Bucket" then Some(MediaPrimaryS3Bucket)
      else if s == "mediaDisplayS3Bucket" then Some(MediaDisplayS3Bucket)
      else if s == "levelRankUpgradeType" then Some(LevelRankUpgradeType)
      else None
    case 21 =>
      if s == "reservedSerialNumbers" then Some(ReservedSerialNumbers)
      else if s == "mediaPrimaryGoogleUrl" then Some(MediaPrimaryGoogleUrl)
      else if s == "mediaDisplayGoogleUrl" then Some(MediaDisplayGoogleUrl)
      else None
    case 25 =>
      if s == "serialNumberTransferOrder" then Some(SerialNumberTransferOrder)
      else None
    case _ => None
  }

  /** The field whose column label is `s`, if any. */
  function FieldLabelled(s: string): Option<Field> {
    match |s|
    case 3 =>
      if s == "Set" then Some(Set)
      else None
    case 4 =>
      if s == "Type" then Some(Type)
      else if s == "Rank" then Some(Rank)
      else None
    case 5 =>
      if s == "Title" then Some(Title)
      else if s == "Level" then Some(Level)
      else None
    case 6 =>
      if s == "Series" then Some(Series)
      else if s == "Season" then Some(Season)
      else if s == "Artist" then Some(Artist)
      else if s == "Rarity" then Some(Rarity)
      else None
    case 7 =>
      if s == "Episode" then Some(Episode)
      else None
    case 8 =>
      if s == "Platform" then Some(Platform)
      else if s == "Category" then Some(Category)
      else if s == "Sub-Type" then Some(SubType)
      else if s == "And / Or" then Some(AndOr)
      else if s == "Comments" then Some(Comments)
      else None
    case 9 =>
      if s == "Copyright" then Some(Copyright)
      else None
    case 10 =>
      if s == "Age Rating" then Some(AgeRating)
      else if s == "Collection" then Some(Collection)
      else None
    case 11 =>
      if s == "Mint Supply" then Some(MintSupply)
      else if s == "Description" then Some(Description)
      else if s == "Enhancement" then Some(Enhancement)
      else None
    case 12 =>
      if s == "Platform URL" then Some(PlatformUrl)
      else if s == "Edition Type" then Some(EditionType)
      else None
    case 14 =>
      if s == "Pre-Mint Count" then Some(PreMintCount)
      else if s == "Transferabilty" then Some(Transferability)
      else None
    case 15 =>
      if s == "Unlock Currency" then Some(UnlockCurrency)
      else None
    case 16 =>
      if s == "Include Serial #" then Some(IncludeSerialNumber)
      else if s == "Unlock Threshold" then Some(UnlockThreshold)
      else if s == "P2P Sale Royalty" then Some(P2pSaleRoyalty)
      else None
    case 18 =>
      if s == "Reserved Serial #s" then Some(ReservedSerialNumbers)
      else if s == "Purchase Price - 1" then Some(PurchasePrice1)
      else if s == "Purchase Price - 2" then Some(PurchasePrice2)
      else if s == "P2P Limit / Wallet" then Some(P2pLimitPerWallet)
      else None
    case 19 =>
      if s == "Mint Limit / Wallet" then Some(MintLimitPerWallet)
      else None
    case 21 =>
      if s == "Intellectual Property" then Some(IntellectualProperty)
      else if s == "Purchase Currency - 1" then Some(PurchaseCurrency1)
      else if s == "Purchase Currency - 2" then Some(PurchaseCurrency2)
      else None
    case 23 =>
      if s == "Serial # Transfer Order" then Some(SerialNumberTransferOrder)
      else None
    case 27 =>
      if s == "Media - Primary (S3 bucket)" then Some(MediaPrimaryS3Bucket)
      else if s == "Media - Display (S3 bucket)" then Some(MediaDisplayS3Bucket)
      else None
    case 28 =>
      if s == "Media - Primary (Google URL)" then Some(MediaPrimaryGoogleUrl)
      else if s == "Media - Display (Google URL)" then Some(MediaDisplayGoogleUrl)
      else None
    case 36 =>
      if s == "Bonus Media URL (e.g., YouTube link)" then Some(BonusMediaUrl)
      else None
    case 47 =>
      if s == "Level/Rank Upgrade Type (Dynamic or Additional)" then Some(LevelRankUpgradeType)
      else None
    case _ => None
  }

  /** The label table as the source spells it out: `(label, property name)` in column order. */
  function LabelTable(): (t: seq<(string, string)>)
    ensures |t| == 44
    ensures forall i :: 0 <= i < 44 ==> t[i] == (Label(FieldOrder()[i]), Name(FieldOrder()[i]))
  {
    seq(44, i requires 0 <= i < 44 => (Label(FieldOrder()[i]), Name(FieldOrder()[i])))
  }

  lemma IndexFieldAt(i: nat)
    requires i < 44
    ensures Index(FieldAt(i)) == i
  {
  }

  // The lookups below are checked a few fields at a time, to keep each proof small.

  lemma FieldAtIndexPart1(f: Field)
    requires 0 <= Index(f) < 6
    ensures FieldAt(Index(f)) == f
  {
  }

  lemma FieldAtIndexPart2(f: Field)
    requires 6 <= Index(f) < 12
    ensures FieldAt(Index(f)) == f
  {
  }

  lemma FieldAtIndexPart3(f: Field)
    requires 12 <= Index(f) < 18
    ensures FieldAt(Index(f)) == f
  {
  }

  lemma FieldAtIndexPart4(f: Field)
    requires 18 <= Index(f) < 24
    ensures FieldAt(Index(f)) == f
  {
  }

  lemma FieldAtIndexPart5(f: Field)
    requires 24 <= Index(f) < 30
    ensures FieldAt(Index(f)) == f
  {
  }

  lemma FieldAtIndexPart6(f: Field)
    requires 30 <= Index(f) < 36
    ensures FieldAt(Index(f)) == f
  {
  }

  lemma FieldAtIndexPart7(f: Field)
    requires 36 <= Index(f) < 42
    ensures FieldAt(Index(f)) == f
  {
  }

  lemma FieldAtIndexPart8(f: Field)
    requires 42 <= Index(f) < 44
    ensures FieldAt(Index(f)) == f
  {
  }

  lemma FieldAtIndex(f: Field)
    ensures FieldAt(Index(f)) == f
  {
    var i := Index(f);
    if i < 6 { FieldAtIndexPart1(f); }
    else if i < 12 { FieldAtIndexPart2(f); }
    else if i < 18 { FieldAtIndexPart3(f); }
    else if i < 24 { FieldAtIndexPart4(f); }
    else if i < 30 { FieldAtIndexPart5(f); }
    else if i < 36 { FieldAtIndexPart6(f); }
    else if i < 42 { FieldAtIndexPart7(f); }
    else { FieldAtIndexPart8(f); }
  }

  /** Declaration order lists every field exactly once. */
  lemma FieldOrderIsPermutation()
    ensures forall f: Field :: f in FieldOrder() && FieldOrder()[Index(f)] == f
    ensures forall i, j :: 0 <= i < j < |FieldOrder()| ==> FieldOrder()[i] != FieldOrder()[j]
  {
    forall f: Field ensures f in FieldOrder() && FieldOrder()[Index(f)] == f {
      FieldAtIndex(f);
      assert FieldOrder()[Index(f)] == f;
    }
    forall i, j | 0 <= i < j < |FieldOrder()| ensures FieldOrder()[i] != FieldOrder()[j] {
      IndexFieldAt(i);
      IndexFieldAt(j);
    }
  }

  lemma LabelInversePart1(f: Field)
    requires 0 <= Index(f) < 6
    ensures FieldLabelled(Label(f)) == Some(f)
  {
  }

  lemma LabelInversePart2(f: Field)
    requires 6 <= Index(f) < 12
    ensures FieldLabelled(Label(f)) == Some(f)
  {
  }

  lemma LabelInversePart3(f: Field)
    requires 12 <= Index(f) < 18
    ensures FieldLabelled(Label(f)) == Some(f)
  {
  }

  lemma LabelInversePart4(f: Field)
    requires 18 <= Index(f) < 24
    ensures FieldLabelled(Label(f)) == Some(f)
  {
  }

  lemma LabelInversePart5(f: Field)
    requires 24 <= Index(f) < 30
    ensures FieldLabelled(Label(f)) == Some(f)
  {
  }

  lemma LabelInversePart6(f: Field)
    requires 30 <= Index(f) < 36
    ensures FieldLabelled(Label(f)) == Some(f)
  {
  }

  lemma LabelInversePart7(f: Field)
    requires 36 <= Index(f) < 42
    ensures FieldLabelled(Label(f)) == Some(f)
  {
  }

  lemma LabelInversePart8(f: Field)
    requires 42 <= Index(f) < 44
    ensures FieldLabelled(Label(f)) == Some(f)
  {
  }

  lemma NameInversePart1(f: Field)
    requires 0 <= Index(f) < 6
    ensures FieldNamed(Name(f)) == Some(f)
  {
  }

  lemma NameInversePart2(f: Field)
    requires 6 <= Index(f) < 12
    ensures FieldNamed(Name(f)) == Some(f)
  {
  }

  lemma NameInversePart3(f: Field)
    requires 12 <= Index(f) < 18
    ensures FieldNamed(Name(f)) == Some(f)
  {
  }

  lemma NameInversePart4(f: Field)
    requires 18 <= Index(f) < 24
    ensures FieldNamed(Name(f)) == Some(f)
  {
  }

  lemma NameInversePart5(f: Field)
    requires 24 <= Index(f) < 30
    ensures FieldNamed(Name(f)) == Some(f)
  {
  }

  lemma NameInversePart6(f: Field)
    requires 30 <= Index(f) < 36
    ensures FieldNamed(Name(f)) == Some(f)
  {
  }

  lemma NameInversePart7(f: Field)
    requires 36 <= Index(f) < 42
    ensures FieldNamed(Name(f)) == Some(f)
  {
  }

  lemma NameInversePart8(f: Field)
    requires 42 <= Index(f) < 44
    ensures FieldNamed(Name(f)) == Some(f)
  {
  }

  /** `FieldLabelled` inverts `Label`. */
  lemma LabelInverse(f: Field)
    ensures FieldLabelled(Label(f)) == Some(f)
  {
    var i := Index(f);
    if i < 6 { LabelInversePart1(f); }
    else if i < 12 { LabelInversePart2(f); }
    else if i < 18 { LabelInversePart3(f); }
    else if i < 24 { LabelInversePart4(f); }
    else if i < 30 { LabelInversePart5(f); }
    else if i < 36 { LabelInversePart6(f); }
    else if i < 42 { LabelInversePart7(f); }
    else { LabelInversePart8(f); }
  }

  /** `FieldNamed` inverts `Name`. */
  lemma NameInverse(f: Field)
    ensures FieldNamed(Name(f)) == Some(f)
  {
    var i := Index(f);
    if i < 6 { NameInversePart1(f); }
    else if i < 12 { NameInversePart2(f); }
    else if i < 18 { NameInversePart3(f); }
    else if i < 24 { NameInversePart4(f); }
    else if i < 30 { NameInversePart5(f); }
    else if i < 36 { NameInversePart6(f); }
    else if i < 42 { NameInversePart7(f); }
    else { NameInversePart8(f); }
  }

  /** No two fields share a column label. */
  lemma LabelInjective(f: Field, g: Field)
    requires Label(f) == Label(g)
    ensures f == g
  {
    LabelInverse(f);
    LabelInverse(g);
  }

  /** No two fields share a property name. */
  lemma NameInjective(f: Field, g: Field)
    requires Name(f) == Name(g)
    ensures f == g
  {
    NameInverse(f);
    NameInverse(g);
  }

  /** The label table is injective in both columns, so import and export are inverse mappings. */
  lemma LabelTableInjective()
    ensures forall i, j :: 0 <= i < j < 44 ==>
      LabelTable()[i].0 != LabelTable()[j].0 && LabelTable()[i].1 != LabelTable()[j].1
  {
    FieldOrderIsPermutation();
    forall i, j | 0 <= i < j < 44
      ensures LabelTable()[i].0 != LabelTable()[j].0 && LabelTable()[i].1 != LabelTable()[j].1
    {
      if Label(FieldOrder()[i]) == Label(FieldOrder()[j]) {
        LabelInjective(FieldOrder()[i], FieldOrder()[j]);
      }
      if Name(FieldOrder()[i]) == Name(FieldOrder()[j]) {
        NameInjective(FieldOrder()[i], FieldOrder()[j]);
      }
    }
  }

  lemma LabelCommaFreePart1(f: Field)
    requires 0 <= Index(f) < 4
    ensures ',' !in Label(f)
  {
  }

  lemma LabelCommaFreePart2(f: Field)
    requires 4 <= Index(f) < 8
    ensures ',' !in Label(f)
  {
  }

  lemma LabelCommaFreePart3(f: Field)
    requires 8 <= Index(f) < 12
    ensures ',' !in Label(f)
  {
  }

  lemma LabelCommaFreePart4(f: Field)
    requires 12 <= Index(f) < 15
    ensures ',' !in Label(f)
  {
  }

  lemma LabelCommaFreePart5(f: Field)
    requires 15 <= Index(f) < 18
    ensures ',' !in Label(f)
  {
  }

  lemma LabelCommaFreePart6(f: Field)
    requires 18 <= Index(f) < 20
    ensures ',' !in Label(f)
  {
  }

  lemma LabelCommaFreePart7(f: Field)
    requires 20 <= Index(f) < 22
    ensures ',' !in Label(f)
  {
  }

  lemma LabelCommaFreePart8(f: Field)
    requires 22 <= Index(f) < 24
    ensures ',' !in Label(f)
  {
  }

  lemma LabelCommaFreePart9(f: Field)
    requires 24 <= Index(f) < 27
    ensures ',' !in Label(f)
  {
  }

  lemma LabelCommaFreePart10(f: Field)
    requires 27 <= Index(f) < 30
    ensures ',' !in Label(f)
  {
  }

  lemma LabelCommaFreePart11(f: Field)
    requires 30 <= Index(f) < 34
    ensures ',' !in Label(f)
  {
  }

  lemma LabelCommaFreePart12(f: Field)
    requires 34 <= Index(f) < 37
    ensures ',' !in Label(f)
  {
  }

  lemma LabelCommaFreePart13(f: Field)
    requires 38 <= Index(f) < 41
    ensures ',' !in Label(f)
  {
  }

  lemma LabelCommaFreePart14(f: Field)
    requires 42 <= Index(f) < 44
    ensures ',' !in Label(f)
  {
  }

  /** Only the bonus media URL's column label holds a comma (see `BonusLabelPieces`). */
  lemma LabelCommaFree(f: Field)
    requires Index(f) != 41
    ensures ',' !in Label(f)
  {
    var i := Index(f);
    if i < 4 { LabelCommaFreePart1(f); }
    else if i < 8 { LabelCommaFreePart2(f); }
    else if i < 12 { LabelCommaFreePart3(f); }
    else if i < 15 { LabelCommaFreePart4(f); }
    else if i < 18 { LabelCommaFreePart5(f); }
    else if i < 20 { LabelCommaFreePart6(f); }
    else if i < 22 { LabelCommaFreePart7(f); }
    else if i < 24 { LabelCommaFreePart8(f); }
    else if i < 27 { LabelCommaFreePart9(f); }
    else if i < 30 { LabelCommaFreePart10(f); }
    else if i < 34 { LabelCommaFreePart11(f); }
    else if i < 37 { LabelCommaFreePart12(f); }
    else if i == 37 { FieldAtIndex(f); LongLabelCommaFree(); }
    else if i < 41 { LabelCommaFreePart13(f); }
    else { LabelCommaFreePart14(f); }
  }

  lemma LongLabelCommaFree()
    ensures ',' !in Label(LevelRankUpgradeType)
  {
    var head, tail := "Level/Rank Upgrade Type", " (Dynamic or Additional)";
    assert ',' !in head;
    assert ',' !in tail;
    assert Label(LevelRankUpgradeType) == head + tail;
  }

  /** The bonus media URL's column label is two comma-free pieces around one comma. */
  lemma BonusLabelPieces()
    ensures Label(BonusMediaUrl) == "Bonus Media URL (e.g." + "," + " YouTube link)"
    ensures ',' !in "Bonus Media URL (e.g." && ',' !in " YouTube link)"
  {
  }

  /** The import mapping of both stores: each field read from its labelled column, `''` when the
      column is missing. */
  function RowInput(row: Obj): (m: map<Field, string>)
  {
    map f: Field :: GetOrEmpty(row, Label(f))
  }

  /** The export entries for `fs`: `(column(f), value)` for each listed field the record holds. */
  function ExportEntries(fs: seq<Field>, fields: map<Field, string>, column: Field -> string): Obj
    decreases |fs|
  {
    if fs == [] then []
    else
      (if fs[0] in fields then [(column(fs[0]), fields[fs[0]])] else [])
      + ExportEntries(fs[1..], fields, column)
  }

  /** The export row object of a record: labelled columns in declaration order. */
  function ExportRow(fields: map<Field, string>): Obj {
    ExportEntries(FieldOrder(), fields, Label)
  }

  /** With distinct column names, reading a column of the entries finds the value of its field,
      if listed and held. */
  lemma {:induction false} GetExportEntries(fs: seq<Field>, fields: map<Field, string>,
                                            column: Field -> string, f: Field)
    requires forall g: Field, h: Field :: column(g) == column(h) ==> g == h
    ensures Get(ExportEntries(fs, fields, column), column(f)) ==
      if f in fs && f in fields then Some(fields[f]) else None
    decreases |fs|
  {
    if fs != [] {
      GetExportEntries(fs[1..], fields, column, f);
      var rest := ExportEntries(fs[1..], fields, column);
      assert fs == [fs[0]] + fs[1..];
      if fs[0] in fields {
        assert ExportEntries(fs, fields, column) == [(column(fs[0]), fields[fs[0]])] + rest;
        var e := [(column(fs[0]), fields[fs[0]])] + rest;
        if column(fs[0]) == column(f) {
          assert fs[0] == f;
          assert Get(e, column(f)) == Some(fields[f]);
        } else {
          assert e[1..] == rest && e[0].0 != column(f);
          assert fs[0] != f;
        }
      } else {
        assert ExportEntries(fs, fields, column) == [] + rest == rest;
        assert (f in fs && f in fields) == (f in fs[1..] && f in fields);
      }
    }
  }

  /** A complete record exports one column per listed field, in order. */
  lemma {:induction false} ExportEntriesKeys(fs: seq<Field>, fields: map<Field, string>,
                                             column: Field -> string)
    requires Complete(fields)
    ensures Keys(ExportEntries(fs, fields, column))
         == seq(|fs|, i requires 0 <= i < |fs| => column(fs[i]))
    decreases |fs|
  {
    if fs != [] {
      ExportEntriesKeys(fs[1..], fields, column);
      assert ExportEntries(fs, fields, column)
          == [(column(fs[0]), fields[fs[0]])] + ExportEntries(fs[1..], fields, column);
    }
  }

  /** Each export column holds the record's value for its field; a missing field has no column. */
  lemma ExportRowGet(fields: map<Field, string>, f: Field)
    ensures Get(ExportRow(fields), Label(f)) == if f in fields then Some(fields[f]) else None
  {
    FieldOrderIsPermutation();
    forall g: Field, h: Field | Label(g) == Label(h) ensures g == h {
      LabelInjective(g, h);
    }
    GetExportEntries(FieldOrder(), fields, Label, f);
  }

  /** Importing an exported row gives back every field, a missing one as `''`; a complete record
      comes back unchanged. */
  lemma ExportImportRow(fields: map<Field, string>)
    ensures forall f: Field :: RowInput(ExportRow(fields))[f] == ValueOr(fields, f)
    ensures Complete(fields) ==> RowInput(ExportRow(fields)) == fields
  {
    forall f: Field ensures RowInput(ExportRow(fields))[f] == ValueOr(fields, f) {
      ExportRowGet(fields, f);
    }
  }

  /** The header of an export of complete records: every label, in declaration order. */
  lemma ExportRowKeys(fields: map<Field, string>)
    requires Complete(fields)
    ensures Keys(ExportRow(fields)) == seq(44, i requires 0 <= i < 44 => Label(FieldAt(i)))
  {
    ExportEntriesKeys(FieldOrder(), fields, Label);
  }
}
