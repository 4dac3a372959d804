/** The Asset entity as the search and the asset operations see it. */
module Assets {
  import opened Wrappers
  import opened Base

  /** An Asset row. FileName is a required column; FileType, MimeType and
      UserMetadata may be null. `tagIds` are the VisualTagIds of its AssetTags. */
  datatype Asset = Asset(
    id: Guid,
    fileName: string,
    filePath: string,
    fileType: Option<string>,
    mimeType: Option<string>,
    fileSize: int,
    folderId: Option<Guid>,
    userId: string,
    companyId: Option<Guid>,
    userMetadata: Option<string>,
    createdAt: Ticks,
    updatedAt: Ticks,
    isDeleted: bool,
    deletedAt: Option<Ticks>,
    tagIds: seq<Guid>)

  /** The primary key. */
  function AssetKey(): Asset -> Guid {
    (a: Asset) => a.id
  }

  function AssetOwner(userId: string): Asset -> bool {
    (a: Asset) => a.userId == userId
  }

  function AssetIdIs(id: Guid): Asset -> bool {
    (a: Asset) => a.id == id
  }
}
