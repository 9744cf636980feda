/** The fixed text of the image gallery page of generate_gallery_html.py: the page head up to
    the opening of the grid, and the page tail. */
module GalleryTemplate {
  const GalleryHead: string := @"<!DOCTYPE html>
<html lang=""nl"">
<head>
  <meta charset=""utf-8"">
  <title>Galerij</title>
  <meta name=""viewport"" content=""width=device-width, initial-scale=1"">
  <style>
    :root { --bg:#fafafa; --fg:#1a1a1a; --muted:#666; --card-bg:#fff; --card-border:#eee; --maxw:1000px; }
    html,body { margin:0; padding:0; background:var(--bg); color:var(--fg);
      font-family:-apple-system,BlinkMacSystemFont,""Segoe UI"",Roboto,""Helvetica Neue"",Arial,system-ui,sans-serif;
      line-height:1.6; -webkit-font-smoothing:antialiased; -moz-osx-font-smoothing:grayscale; }
    .container { max-width:var(--maxw); margin:0 auto; padding:24px 16px 64px; }
    header { margin:0 0 24px; padding:24px 0 8px; border-bottom:1px solid var(--card-border); }
    header h1 { margin:0 0 6px; font-size:28px; font-weight:700; letter-spacing:-.02em; }
    header p { margin:0; color:var(--muted); font-size:14px; }
    .grid { display:grid; grid-template-columns:repeat(auto-fill, minmax(220px, 1fr)); gap:16px; }
    .figure { display:flex; flex-direction:column; align-items:center; }
    .figure a { display:block; width:100%; background:var(--card-bg); border:1px solid var(--card-border);
      border-radius:12px; overflow:hidden; box-shadow:0 4px 16px rgba(0,0,0,.06); text-decoration:none; }
    .figure img { display:block; width:100%; height:auto; }
    .caption { margin-top:8px; color:var(--muted); font-size:13px; text-align:center; word-break:break-all; }
  </style>
</head>
<body>
  <div class=""container"">
    <header>
      <h1>Afbeeldingen galerij</h1>
      <p>Alle afbeeldingen uit submappen (klik om te openen). Bijschrift toont het relatieve pad.</p>
    </header>
    <div class=""grid"">
"

  const GalleryTail: string := @"    </div>
  </div>
</body>
</html>
"
}
