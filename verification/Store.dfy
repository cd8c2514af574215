// Provider-neutral listing metadata (internal/store/readstore.go).
module Store {
  import opened Results

  const MAX_PAGE_OBJECTS := 1_000
  const MAX_KEY_BYTES := 16 * 1024
  const MAX_CURSOR_BYTES := 16 * 1024

  datatype Object = Object(key: string, size: int, lastModified: Time)

  datatype Page = Page(objects: seq<Object>, nextCursor: string)
}
